# Verification of Upstand's algorithms and protocols

This project models the parts of Upstand in which something is computed or agreed upon, and proves what they
promise for every input, every run and every interleaving. `dafny verify dfyconfig.toml` checks all of it.

| part | files |
|---|---|
| Splitting SQL migrations into statements | `SqlSplitter`, `SqlSplitterLaws`, `SqlPieces` |
| Client addresses: parsing, printing, CIDR blocks, proxy hops | `IpText`, `IpTextLaws`, `ClientIp`, `ClientIpLaws`, `ClientPortLaws`, `WrittenAddresses`, `AcceptedAddresses`, `Cidr`, `CidrConfig`, `ClientResolution`, `ClientCases` |
| CLI device authorization (RFC 8628) over Redis | `DeviceStore`, `DeviceProtocol`, `DeviceSafety`, `DeviceExamples`, `DeviceClaims` |
| Policy check of Docker API bodies | `PolicyScanner`, `PolicyLimits`, `HostEscape`, `HostEscapeCases` |
| Docker's multiplexed streams | `DockerFrames`, `ExecFrames` |
| Replacing the Caddy configuration | `CaddyTransaction`, `CaddyInterleaving` |
| Daily AI budgets | `DailyBudget`, `DailyReservations`, `DailyCap` |
| Managed Docker networks under concurrent callers | `ManagedNetwork` |
| Operational alerts | `AlertMonitor` |
| Merging release notes | `Changelog`, `ChangelogLaws`, `ChangelogCases`, `ChangelogFixpoints` |
| Extracting application archives | `ArchiveSwap`, `ArchiveCases` |
| Strings and numerals | `Text`, `Numerals` |

Code that changes things step by step is a method with loops or a class with fields, proved against a function
on values; the laws are lemmas about these functions. Where callers interleave, a state machine takes one
command at a time: `Next` is one move, `Run` any sequence of moves, and an invariant holds after every `Run`.
A class method is the same operation when nothing interrupts it.

## What is assumed about the surroundings

- Strings are sequences of ASCII characters: lower-casing and case-insensitive comparison act on A to Z.
  `isIP` of node:net is modelled by the text forms it accepts.
- A digest is as good as the code it hashes, encryption is undone by decryption, and device codes are fresh. User codes may collide.
- A Redis command, including an EVAL, is one step. A key may expire at any moment of a run; the expiry of the
  budget counters is timed.
- Times are whole milliseconds since the epoch, a day is the number of its UTC date, amounts are integers.
- `groups[0] << 8 | groups[1]` on octets is multiplication and addition.
- `json.Decoder` is a stream of tokens; what `json.Unmarshal` makes of a body is an argument that agrees with the tokens.
- Caddy's `fmt` and `validate` are a function and a predicate. A command of the Caddy transaction may fail before,
  after or part-way through its effect.
- The Docker daemon maps names to networks, refuses a second network of a name, and gives overlay networks the
  scope `swarm`. Each HTTP request may be lost, or carried out without its answer arriving.
- JavaScript code between two waits runs undisturbed; what `tar` unpacks is an argument. A removal that fails leaves its directory.

## Findings

Each is a member of the table below; the exact condition comes first, inputs follow it.

- `OversizedHeaderYieldsRealIp`, `OversizedHeaderMisses`: a test (packages/api/src/client-ip.test.ts:38) says that
  oversized forwarding headers fall back to the socket peer; the code falls back to the real-ip header first. The model follows the code.
- `RefusableExactlyByStaleDeny`, `ApprovalsCanBeRefused`: `deny` reads and writes in two commands, so an approval can be
  overwritten by a deny that read the request before. Safety is not affected: the request is then closed.
- `DeliveriesNameAnOrganization`: an approval for an empty organization would be answered as an expired token; the
  route that approves refuses one (apps/server/src/http/routes/cli-device-auth.ts:31).
- `ApprovalMatchesClaimExactly`, `ApprovalsCanMissTheClaim`: the completion script checks the user of the claim, not its
  organization. A user who claims again for another organization meanwhile gets the approval of the first one.
- `OrderIndependentExactly`, `AmbiguousMountDepends`: the fields of a Docker mount are well defined only because the
  duplicate-key check runs first.
- `DecodersAgreeExactly`, `StrangeStreamDivides`: the decoder of exec output neither checks stream numbers nor minds a
  short rest, and returns frames without payload undecoded.
- `Applied`, `TornCallExists`: file and running configuration part exactly if the reload takes effect, fails and is rolled
  back, or the swap takes effect, the reload does not, and the rollback fails before it has restored the file.
- `MisleadableExactly`, `TearableExactly`, `OverlapTears`: the broker holds no lock. Calls that overlap can report success
  for a configuration that does not run, and can part file and running configuration for good; both are stated command by
  command. The control plane keeps calls apart (packages/infrastructure/src/caddy/caddy.service.ts:792).
- `CapFailsExactly`, `LateRequestOvershoots`, `RestartedCounterOvershoots`: a reservation can pass the daily cap exactly when
  the counter has expired, or had expired when it was charged before. Either takes a script that runs after the day of its
  request has ended.
- `MergeIdempotentExactly`, `NotesAddedAgain`: a note with a heading behind its first line, or with the line ends of
  Windows, is added again by every merge. The release script passes changesets on as they are (scripts/version-release.ts:40-44).
- `SwapIsAtomicExactly`, `TreesCanBeLost`: if moving the new tree in fails and moving the old one back fails too, the
  clean-up deletes the old tree.
- `CounterReturnsExactly`, `TwoLeaksShutOut`: a removal that fails in the clean-up keeps its slot for good.

## Model

| member | source | states |
|---|---|---|
| `SqlSplitter.SplitSqlStatements` | packages/db/src/pglite-migrator.ts:6-66 | The loop that jumps over two-character tokens and whole comments returns exactly the non-blank trimmed slices that a one-character-at-a-time reader cuts at semicolons outside quotes, `$$` blocks and comments; it terminates because the index grows. |
| `SqlSplitter.ReadQuoted` | packages/db/src/pglite-migrator.ts:16-41 | One turn of the loop inside a quote lands where the one-character reader has made no cut and is in the state the loop believes, or leaves the quote. |
| `SqlSplitterLaws.RawSlicesConcatenate` | packages/db/src/pglite-migrator.ts:6-66 | The raw slices, one per cut and the rest, concatenate to the source. |
| `SqlSplitterLaws.SlicesEndAtCuts` | packages/db/src/pglite-migrator.ts:49-66 | Slices end exactly behind the top-level semicolons and at the end of the source: no cut is missed, none is added. |
| `SqlSplitterLaws.SplitLosesOnlyWhitespace` | packages/db/src/pglite-migrator.ts:52-63 | Trimming and dropping blank slices loses whitespace only: the statements carry every other character, in order. |
| `SqlSplitterLaws.ResplitIsSingleton` | packages/db/src/pglite-migrator.ts:6-66 | Splitting any returned statement again yields that one statement. |
| `SqlSplitterLaws.SplitAllIdempotent` | packages/db/src/pglite-migrator.ts:69-91 | A migration that went through the `flatMap` of the migrator is not changed by a second pass. |
| `SqlSplitterLaws.SplitBehindCut` | packages/db/src/pglite-migrator.ts:6-66 | Behind every cut of a text, the front and the back split on their own. |
| `SqlSplitterLaws.SplitConcatenation` | packages/db/src/pglite-migrator.ts:6-66 | split(a + b) = split(a) ++ split(b) whenever `a` ends in a top-level semicolon. |
| `SqlPieces.PiecesEndInSemicolon` | packages/db/src/pglite-migrator.ts:6-66 | Any plain characters, quoted texts (with escaped quotes), `$$` bodies and comments followed by a semicolon are one statement, trimmed, and what follows splits on its own: no semicolon inside them counts. |
| `SqlPieces.PiecesAlone` | packages/db/src/pglite-migrator.ts:63-66 | Without a semicolon behind them they are one trailing statement, unless they are blank. |
| `SqlPieces.UnclosedTakesTheRest` | packages/db/src/pglite-migrator.ts:16-48 | A quote, `$$` body or comment that is not closed takes the rest of the text, semicolons included. |
| `IpText.ParseSide` | packages/api/src/client-ip.ts:38-65 | The loop over one side of `::` yields the groups of all its parts, in order, or fails as soon as one part is no group. |
| `IpText.FindBestRun` | packages/api/src/client-ip.ts:80-92 | The scan that skips from run to run finds the first longest run of zero groups. |
| `IpText.RunEnd` | packages/api/src/client-ip.ts:84-91 | The inner loop stops one past the last zero of the run. |
| `IpText.Ipv6GroupsToString` | packages/api/src/client-ip.ts:80-107 | The printer returns the compressed text of the groups, with the gap at either end or in the middle. |
| `IpTextLaws.ParsePrintGroups` | packages/api/src/client-ip.ts:35-107 | For every eight 16-bit groups, parsing the printed text gives the groups back. |
| `IpTextLaws.PrintGroupsInjective` | packages/api/src/client-ip.ts:80-107 | Different addresses print differently. |
| `IpTextLaws.ChosenRunIsFirstLongest` | packages/api/src/client-ip.ts:80-92 | No run of zeros is longer than the one chosen, and no earlier one is as long. |
| `IpTextLaws.PrintCompressesFirstLongestRun` | packages/api/src/client-ip.ts:80-107 | RFC 5952, sections 4.2.2 and 4.2.3: whatever run is first and longest is the one left out, provided it has at least two zeros; otherwise nothing is left out. |
| `ClientIpLaws.TextIsNormal` | packages/api/src/client-ip.ts:123-164 | The text of every IPv4 address and every IPv6 address that is not mapped is its own normal form and denotes that address. |
| `ClientIpLaws.NormalFormsAreTexts` | packages/api/src/client-ip.ts:123-150 | Every result of `normalizeIp` is the canonical text of a valid address. |
| `ClientIpLaws.NormalizeIdempotent` | packages/api/src/client-ip.ts:123-150 | `normalizeIp` applied to any of its results changes nothing. |
| `ClientIpLaws.SameNormalFormSameAddress` | packages/api/src/client-ip.ts:123-164 | Two accepted texts have the same normal form if and only if they denote the same address. |
| `ClientIpLaws.MappedNormalizesToIpv4` | packages/api/src/client-ip.ts:136-148 | The text of an IPv4-mapped IPv6 address has the normal form of the IPv4 address. |
| `ClientPortLaws.PortsAreIgnored` | packages/api/src/client-ip.ts:109-150 | An address in brackets with a port, and an IPv4 address with a port, have the normal form of the address, whatever the port. |
| `WrittenAddresses.QuadNormalizes` | packages/api/src/client-ip.ts:22-33 | Four decimal numbers with dots are an IPv4 address if and only if each has at most three digits and none is above 255; leading zeros are dropped. |
| `WrittenAddresses.WholeParses` | packages/api/src/client-ip.ts:35-78 | Groups of one to four digits of either case, with or without a dotted quad behind them, parse to their values, the quad as `o[0] * 256 + o[1], o[2] * 256 + o[3]`, if these are eight groups, and otherwise not at all. |
| `WrittenAddresses.CompressedParses` | packages/api/src/client-ip.ts:35-78 | Two such sides around `::` parse to their groups with zeros between them if these are fewer than eight, and otherwise not at all. |
| `WrittenAddresses.WholeNormalizes` | packages/api/src/client-ip.ts:123-150 | The normal form of a whole address so written is the text of its groups, of the IPv4 address where they are mapped. |
| `WrittenAddresses.CompressedNormalizes` | packages/api/src/client-ip.ts:123-150 | The same for a compressed address. |
| `WrittenAddresses.DualStackPeer` | packages/api/src/client-ip.ts:46-58 | For all octets, `::ffff:` and the dotted quad has the dotted quad as its normal form. |
| `AcceptedAddresses.AcceptedExactly` | packages/api/src/client-ip.ts:123-150 | A text without port, brackets and surrounding space has a normal form if and only if it is a dotted quad or an IPv6 text as RFC 4291, section 2.2, writes it. |
| `AcceptedAddresses.SpaceIsIgnored` | packages/api/src/client-ip.ts:109-121 | Space around a text does not change its normal form. |
| `Cidr.SamePrefix` | packages/api/src/client-ip.ts:208-222 | For any groups and any prefix length the loop and the masked comparison are the comparison group by group; within the bits of a family that is true exactly when the leading bits of the two addresses, taken as one 32-bit or 128-bit integer, agree. |
| `Cidr.ByGroupIsByBits` | packages/api/src/client-ip.ts:208-222 | Group by group and leading bits are the same comparison for every prefix within the bits of the family. |
| `Cidr.ContainsByGroup` | packages/api/src/client-ip.ts:208-222 | Leading bits agree if and only if the complete groups are equal and the partial groups are equal under the mask, for every prefix length of the family. |
| `Cidr.MaskKeepsLeadingBits` | packages/api/src/client-ip.ts:215-222 | A group under the mask of ones shifted left keeps exactly its leading bits. |
| `Cidr.ShiftsScale` | packages/api/src/client-ip.ts:215-222 | The shifts used to take leading bits are multiplication and division by powers of two. |
| `Cidr.MatchesNetwork` | packages/api/src/client-ip.ts:204-223 | Any network, valid or not: other families and addresses that do not parse never match, a valid network matches the addresses of its family with its leading bits. |
| `Cidr.IsTrustedProxy` | packages/api/src/client-ip.ts:198-224 | An address is trusted exactly when it parses and one of the given networks, valid or not, contains it. |
| `Cidr.TrustedExactly` | packages/api/src/client-ip.ts:198-224 | For configured networks: trusted if and only if the address has the family and the leading bits of one of them. |
| `Cidr.ParsedNetworksAreValid` | packages/api/src/client-ip.ts:166-196 | Every network that configuration parsing lets through has a normalised address and a prefix within the bits of its family, which is all the matcher relies on. |
| `CidrConfig.ReadAddressAndPrefix` | packages/api/src/client-ip.ts:174-194 | A canonical address with a prefix is read as that network if and only if the prefix is within the bits of its family; otherwise configuration parsing throws. |
| `CidrConfig.ReadItem` | packages/api/src/client-ip.ts:174-194 | An address alone, or with nothing behind its slash, is read with all 32 or 128 bits; with a decimal number of at most as many, with that prefix; with anything else, not at all. |
| `CidrConfig.UnreadableItem` | packages/api/src/client-ip.ts:174-184 | An item without an address in front of the slash is not read. |
| `CidrConfig.ReadList` | packages/api/src/client-ip.ts:166-173 | The networks of a list are those of its items in order; one that cannot be read makes the list unreadable. |
| `CidrConfig.ReadSingle` | packages/api/src/client-ip.ts:166-173 | A list of one item is that item, trimmed, or empty if it is blank. |
| `CidrConfig.ReadWrittenNetworks` | packages/api/src/client-ip.ts:166-196 | Every list of canonical networks, written down with commas, is read back as that list. |
| `CidrConfig.ParsedCidrIsCanonical` | packages/api/src/client-ip.ts:174-194 | Whatever is read is canonical, so that it can be written down again. |
| `ClientResolution.ResolveClientIp` | packages/api/src/client-ip.ts:230-259 | The method returns the resolution of the request: unknown peer, untrusted peer, forwarded hops within the limits, real-ip header, peer. |
| `ClientResolution.WalkHops` | packages/api/src/client-ip.ts:247-252 | The loop over the hops, which stops at the first untrusted address, is the walk over hops and peer. |
| `ClientResolution.WalkStops` | packages/api/src/client-ip.ts:247-252 | The walk ends at the only position with everything to its right trusted that is the left end or untrusted itself. |
| `ClientResolution.WalkIgnoresLeft` | packages/api/src/client-ip.ts:247-252 | Whatever stands left of an untrusted address has no influence on the result. |
| `ClientResolution.HopsOfParts` | packages/api/src/client-ip.ts:241-246 | The hops of a header are those of its left part followed by those of its right part. |
| `ClientResolution.ForgedHopsIgnored` | packages/api/src/client-ip.ts:230-259 | Prepending hops, within the limits, to a header that holds an untrusted address never changes the resolved client. |
| `ClientResolution.OversizedHeaderYieldsRealIp` | packages/api/src/client-ip.ts:236-258 | For an oversized header from a trusted peer the result is the peer if and only if the real-ip header is missing, malformed or names the peer. |
| `ClientResolution.OversizedHeaderMisses` | packages/api/src/client-ip.ts:236-258 | The input: behind any trusted proxy, an oversized header and the real-ip header of any other client resolve to that client. |
| `ClientCases.UnknownPeer` | packages/api/src/client-ip.ts:236-237 | Without a valid peer address the client is unknown. |
| `ClientCases.UntrustedPeerIsClient` | packages/api/src/client-ip.ts:238 | A peer that is not of the family and leading bits of a configured network is the client, for every forwarding and every real-ip header. |
| `ClientCases.TrustedPeerNamesClient` | packages/api/src/client-ip.ts:240-258 | Without a forwarding header, or with an oversized one, a trusted peer is believed about the real-ip header, if that is an address; otherwise it is the client itself. |
| `ClientCases.MalformedHeaderYieldsPeer` | packages/api/src/client-ip.ts:240-256 | A header with more than 20 hops, or one hop that is no address, yields the peer whatever the real-ip header says. |
| `ClientCases.WellFormedHeaderNamesClient` | packages/api/src/client-ip.ts:241-252 | Of any other header the client is the hop that only trusted addresses stand right of and that is not trusted itself, or the first hop. |
| `DeviceStore.CliDeviceAuthStore.Create` | packages/api/src/cli-device-auth.ts:89-109 | Stores a pending request and points the user code to it, as the two steps do when nothing comes between. |
| `DeviceStore.CliDeviceAuthStore.Claim` | packages/api/src/cli-device-auth.ts:134-181 | A pending request under the normalised user code is claimed for user, organization and preset, and nothing else changes; all else is refused. State and answer are those of the stepwise operation run without interruption. |
| `DeviceStore.CliDeviceAuthStore.CompleteApproval` | packages/api/src/cli-device-auth.ts:183-237 | As the stepwise operation: the grant is written only while the request is held by that user with that organization and preset. |
| `DeviceStore.CliDeviceAuthStore.ReleaseClaim` | packages/api/src/cli-device-auth.ts:239-286 | As the stepwise operation: a held request becomes pending again, without its claimant. |
| `DeviceStore.CliDeviceAuthStore.Deny` | packages/api/src/cli-device-auth.ts:288-310 | As the stepwise operation: a pending request is overwritten as denied. |
| `DeviceStore.CliDeviceAuthStore.Poll` | packages/api/src/cli-device-auth.ts:312-350 | Missing: expired. Pending or claiming: pending. Denied: denied. Approved: expired for an empty organization, pending without a secret, otherwise the delivery, which removes the three keys. As the stepwise operation. |
| `DeviceStore.CliDeviceAuthStore.Approve` | packages/api/src/cli-device-auth.ts:121-132 | Claims, completes, and releases the claim exactly when completing fails. |
| `DeviceStore.CliDeviceAuthStore.EvalClaim` | packages/api/src/cli-device-auth.ts:167-180 | The claim script changes the request only if it is still pending under that user code. |
| `DeviceStore.CliDeviceAuthStore.EvalComplete` | packages/api/src/cli-device-auth.ts:215-236 | The completion script writes request and secret together, only while that user holds the claim. |
| `DeviceStore.CliDeviceAuthStore.EvalRelease` | packages/api/src/cli-device-auth.ts:265-285 | The release script gives back only the claim of that user. |
| `DeviceStore.CliDeviceAuthStore.EvalDeliver` | packages/api/src/cli-device-auth.ts:322-335 | The delivery script returns the secret and removes request, secret and index in one step, only for an approved request. |
| `DeviceStore.NormalizedCharacter` | packages/api/src/cli-device-auth.ts:65-67 | Of one character a user code keeps letters, in upper case, and digits. |
| `DeviceStore.NormalizedParts` | packages/api/src/cli-device-auth.ts:65-67 | User codes are normalised character by character. |
| `DeviceProtocol.RunKeepsInv` | packages/api/src/cli-device-auth.ts:89-350 | The invariant of the store and of all calls in flight holds after every interleaving of commands of any number of callers, with keys expiring at any time. |
| `DeviceProtocol.RunsFollowTheLife` | packages/api/src/cli-device-auth.ts:89-350 | In every run the events of each device code follow the life fresh, open, held, granted, closed, and the keys look as that life says. |
| `DeviceProtocol.NextKeepsInv` | packages/api/src/cli-device-auth.ts:89-350 | Every single command of every operation keeps the invariant. |
| `DeviceSafety.DeliveredAtMostOnce` | packages/api/src/cli-device-auth.ts:312-350 | In every run at most one poll per device code is answered with a token. |
| `DeviceSafety.DeliveryComesFromOneApproval` | packages/api/src/cli-device-auth.ts:183-350 | Token and organization of a delivery come from the same completion, which came before it and is the only one for that device code. |
| `DeviceSafety.DeliveryIsRecorded` | packages/api/src/cli-device-auth.ts:312-350 | A poll answers with a token if and only if the run records that delivery. |
| `DeviceSafety.PollFollowsTheLife` | packages/api/src/cli-device-auth.ts:312-350 | In every run an uninterrupted poll is answered by the life of its code: open or held, pending; closed, denied while the record is there and expired once it is gone; fresh, expired; granted, the delivery, or pending without a secret, or expired for an empty organization. |
| `DeviceSafety.EndedRequestsStayEnded` | packages/api/src/cli-device-auth.ts:134-350 | A request that was denied, delivered or dropped is never pending, claiming or approved again, however the run goes on. |
| `DeviceSafety.ClaimsHaveOneWinner` | packages/api/src/cli-device-auth.ts:134-181 | Between two successful claims of a device code lies a release by the first claimant. |
| `DeviceSafety.ApprovalIsTheHolders` | packages/api/src/cli-device-auth.ts:183-237 | An approved request carries the user who held the claim when the approval was written, and the organization that approval named. |
| `DeviceClaims.ApprovalMatchesClaimExactly` | packages/api/src/cli-device-auth.ts:183-237 | In every run of a completion that succeeds, the claim held when its script runs is of the same user, and of the same organization if and only if, since the completion read the request, nobody claimed it again or the last one to do so claimed it for that organization. |
| `DeviceClaims.ApprovalsCanMissTheClaim` | packages/api/src/cli-device-auth.ts:219-226 | The run: claim, completion up to its read, release, claim for another organization, script of the completion; the approval is for the first organization. |
| `DeviceSafety.RefusableExactlyByStaleDeny` | packages/api/src/cli-device-auth.ts:288-310 | An approved request can still be overwritten as denied in some continuation if and only if a deny that read it while pending is in flight. |
| `DeviceSafety.UndisturbedGrant` | packages/api/src/cli-device-auth.ts:89-350 | Create, claim, complete, poll without interference deliver what was approved and leave no key; an empty organization is answered as an expired token. |
| `DeviceExamples.ApprovalsCanBeRefused` | packages/api/src/cli-device-auth.ts:288-310 | The run: create, deny up to its read, claim, complete, for every device code and approval. The request is approved, the denial is in flight, and the approval can be overwritten. |
| `DeviceExamples.DeliveriesNameAnOrganization` | packages/api/src/cli-device-auth.ts:312-350 | In no run is a token delivered for an empty organization. |
| `PolicyScanner.ScanPolicyJSONValue` | apps/docker-broker/main.go:1139-1195 | The recursive consumer succeeds exactly where the grammar-like scan does, and leaves the same tokens. |
| `PolicyScanner.RejectDuplicateJSONKeys` | apps/docker-broker/main.go:1124-1137 | A body is accepted exactly if one value is scanned and nothing follows. |
| `PolicyScanner.ScanDocument` | apps/docker-broker/main.go:1139-1195 | On the tokens of a document followed by anything, the scan leaves exactly what follows, if nesting stays within 128 levels and the lower-cased, trimmed keys of every object are distinct; otherwise it fails. |
| `PolicyScanner.ScannedIsDocument` | apps/docker-broker/main.go:1139-1195 | Whatever token sequence the scan accepts begins with one document within these limits. |
| `PolicyScanner.AcceptedBodies` | apps/docker-broker/main.go:1118-1195 | A body is accepted if and only if it is one such document and nothing else. |
| `PolicyLimits.NestingLimit` | apps/docker-broker/main.go:1139-1142 | n arrays around a value are accepted if and only if n is at most 128. |
| `PolicyLimits.TwoMembers` | apps/docker-broker/main.go:1160-1164 | Two members of an object are accepted if and only if their keys differ by more than case and surrounding space. |
| `HostEscape.WalkHostEscape` | apps/docker-broker/main.go:1208-1292 | For every value with unambiguous keys and every iteration order of its maps, the walk rejects if and only if an object at some depth has a forbidden member. |
| `HostEscape.RejectMember` | apps/docker-broker/main.go:1213-1277 | The switch over a key rejects exactly the forbidden key and value pairs. |
| `HostEscape.DockerMountFields` | apps/docker-broker/main.go:1297-1312 | The loop returns the fields that some order of the members leaves, and where no two names coincide those of the members of that name, in every order. |
| `HostEscape.OrderIndependentExactly` | apps/docker-broker/main.go:1297-1312 | Without the duplicate-key check, kind, source and read-only flag are the same for every iteration order if and only if all kinds agree up to case and surrounding space, all sources agree and all flags agree. |
| `HostEscape.AmbiguousMountDepends` | apps/docker-broker/main.go:1297-1312 | The input: a mount with the members "Source" and "source", of a host directory and a named volume. |
| `HostEscape.EscapesInObject` | apps/docker-broker/main.go:1208-1286 | An object holds a forbidden member at some depth if and only if one of its own members is forbidden or holds one. |
| `HostEscape.EscapesInList` | apps/docker-broker/main.go:1287-1292 | A list holds one if and only if one of its items does. |
| `HostEscape.DistinctDecodesClean` | apps/docker-broker/main.go:1197-1206 | What the duplicate-key check accepts decodes to a value with unambiguous keys at every depth. |
| `HostEscape.RejectHostEscapeJSON` | apps/docker-broker/main.go:1197-1206 | A body passes if and only if it is one document within 128 levels, with unambiguous keys and no forbidden member anywhere. |
| `HostEscapeCases.EachMemberAlone` | apps/docker-broker/main.go:1208-1286 | An object is refused if and only if it is refused for one of its members alone. |
| `HostEscapeCases.SwitchEscapes` | apps/docker-broker/main.go:1214-1219 | Privileged and PublishAllPorts, in any case and spacing: refused if and only if the value is true (or refused itself). |
| `HostEscapeCases.ModeEscapes` | apps/docker-broker/main.go:1314-1322 | The seven modes: refused if and only if the text, trimmed and in lower case, is one of the four host modes or names a container or service. |
| `HostEscapeCases.InjectionEscapes` | apps/docker-broker/main.go:1223-1228 | The five lists of capabilities and devices: refused if and only if not empty. |
| `HostEscapeCases.SysctlsEscape` | apps/docker-broker/main.go:1229-1239 | Sysctls: refused if and only if the list or object is not empty. |
| `HostEscapeCases.DriverOptionsEscape` | apps/docker-broker/main.go:1240-1243 | DriverOpts: refused if and only if the object is not empty. |
| `HostEscapeCases.VolumeDriverEscapes` | apps/docker-broker/main.go:1244-1247 | VolumeDriver: refused if and only if the text is neither blank nor "local". |
| `HostEscapeCases.RuntimeEscapes` | apps/docker-broker/main.go:1248-1251 | Runtime: refused if and only if the text is not blank. |
| `HostEscapeCases.SecurityOptionEscapes` | apps/docker-broker/main.go:1324-1331 | SecurityOpt: refused if and only if one of the texts is one of the five that weaken the profile. |
| `HostEscapeCases.OtherKeysPass` | apps/docker-broker/main.go:1208-1286 | Under any other key only what stands inside the value counts. |
| `HostEscapeCases.BindEscapes` | apps/docker-broker/main.go:1333-1369 | For every bind text: refused if and only if the trimmed first part begins with "/", unless its path is /proc, /sys, /etc/os-release or below the first two and the third part lists "ro" or "readonly". |
| `HostEscapeCases.WrittenBind` | apps/docker-broker/main.go:1333-1369 | An absolute path, however many slashes end it, is refused with a target alone, and with options unless it is such a path and the options ask for read-only access. |
| `HostEscapeCases.MountEscapes` | apps/docker-broker/main.go:1268-1276 | For every mount: refused if and only if its kind is "bind" and its source is such a path and not read-only, or another absolute path. |
| `HostEscapeCases.DockerSwitches` | apps/docker-broker/main.go:1214-1219 | The same with the keys as Docker writes them: both switches. |
| `HostEscapeCases.DockerModes` | apps/docker-broker/main.go:1220-1222 | All seven modes. |
| `HostEscapeCases.DockerInjections` | apps/docker-broker/main.go:1223-1228 | All five lists. |
| `HostEscapeCases.DockerOptions` | apps/docker-broker/main.go:1229-1251 | Kernel parameters, driver options, volume driver and runtime. |
| `HostEscapeCases.DockerSecurityOption` | apps/docker-broker/main.go:1252-1259 | One security option. |
| `HostEscapeCases.DockerBind` | apps/docker-broker/main.go:1260-1267 | One bind. |
| `HostEscapeCases.DockerMount` | apps/docker-broker/main.go:1268-1276 | One mount with its type, source and read-only flag. |
| `HostEscapeCases.SpaceAround` | apps/docker-broker/main.go:1213 | Trimming removes the space around a text and nothing else. |
| `DockerFrames.DecodeDockerLogStream` | apps/docker-broker/typed.go:1527-1543 | The loop over the offset returns the payloads of all frames if the body is a sequence of whole frames, and the body otherwise. |
| `DockerFrames.LogTextOfFrames` | apps/docker-broker/typed.go:1527-1543 | Any list of frames with stream 1 or 2 and 32-bit sizes decodes to its concatenated payloads; a body that no list of frames encodes stays as it is. |
| `DockerFrames.FramesOfEncoded` | apps/docker-broker/typed.go:1527-1543 | Reading the frames of an encoded list gives the list back. |
| `DockerFrames.EncodedFrames` | apps/docker-broker/typed.go:1527-1543 | Encoding the frames read from a body gives the body back. |
| `DockerFrames.DecodeTypedCaddyExecOutput` | apps/docker-broker/caddy.go:707-724 | The loop returns the payloads up to a rest too short for a header, and the output itself if a frame is cut off or nothing is left. |
| `DockerFrames.DecodersAgreeExactly` | apps/docker-broker/caddy.go:707-724 | The two decoders agree on a body if and only if it is empty, a sequence of whole frames with some payload, or not decoded by either. |
| `DockerFrames.StrangeStreamDivides` | apps/docker-broker/caddy.go:707-724 | The input: one frame of stream 3, which service logs return as it is and exec output decodes. |
| `ExecFrames.ExecTextOfFrames` | apps/docker-broker/caddy.go:707-724 | Frames of any stream, and behind them fewer bytes than a header has, are decoded to their payloads if these are not empty; everything else stays as it is. |
| `ExecFrames.FrameLayout` | apps/docker-broker/caddy.go:712-716 | A frame is its stream, three bytes, its size in four bytes with the most significant one first, and its payload. |
| `CaddyTransaction.Applied` | apps/docker-broker/caddy.go:558-628 | If a failed reload leaves Caddy alone and rollbacks work, a call is atomic: success means file and running configuration are the validated candidate, an error before the final clean-up means both are the prior one. In general a call separates file and running configuration if and only if a reload fails after its effect and is rolled back, or a swap with effect is neither rolled back nor loaded. |
| `CaddyTransaction.FirstFailureDecides` | apps/docker-broker/caddy.go:558-618 | A call fails with the first of its commands that fails, in the order of the source; if none does, it reports whether the configurations differed. |
| `CaddyTransaction.LateReloadTears` | apps/docker-broker/caddy.go:608-628 | The input: everything works but the reload, which takes effect and then fails; the file is the old configuration, Caddy runs the new one. |
| `CaddyTransaction.TornCallExists` | apps/docker-broker/caddy.go:608-628 | Such a call exists for concrete texts. |
| `CaddyTransaction.CaddyContainer.RollBack` | apps/docker-broker/caddy.go:622-628 | The backup, if there is one, replaces the file, and the candidate is removed; a rollback that fails before both changes nothing, one that fails between them leaves the candidate. |
| `CaddyTransaction.CaddyContainer.Apply` | apps/docker-broker/caddy.go:558-618 | The command sequence, with any command failing before, after or part-way through its effect, leaves the files and the outcome that the transaction specifies. |
| `CaddyTransaction.StaleFilesAreIgnored` | apps/docker-broker/caddy.go:558-618 | Whatever fails, the effect of a call does not depend on a `.previous` or `.next` that an earlier call left: a stale backup is never restored. |
| `CaddyTransaction.CallsStayConsistent` | apps/docker-broker/caddy.go:558-628 | After any sequence of calls the file is what Caddy runs, and it is the first configuration or a validated candidate of one of the calls. |
| `CaddyInterleaving.UninterruptedIsApplied` | apps/docker-broker/caddy.go:558-628 | Cut into commands: whatever files other calls have left, a call that is not interrupted does what the transaction says. |
| `CaddyInterleaving.MisleadableExactly` | apps/docker-broker/caddy.go:558-628 | For every call: after k of its commands other calls can make it report success while Caddy runs something else if and only if it has put its candidate and has neither reported nor come to know that it has nothing to do (k up to 3) or fails (k up to 5; up to 8 for a candidate that goes through). |
| `CaddyInterleaving.TearableExactly` | apps/docker-broker/caddy.go:558-628 | For every call: after k of its commands it and one other call, every command of which works, can be scheduled so that file and running configuration differ for good if and only if it has not swapped (k up to 6) nor found its candidate active already (k up to 3). |
| `CaddyInterleaving.OverlapTears` | apps/docker-broker/caddy.go:558-628 | Such calls exist for concrete texts. |
| `DailyBudget.SecondsUntilNextUtcDay` | packages/api/src/ai-budget.ts:252-257 | The expiry reaches midnight UTC, is at least a second, and one second less would not reach it. |
| `DailyBudget.BudgetStore.IncrByAndExpire` | packages/api/src/ai-budget.ts:16-22 | Adds to a counter and, for its first amount, sets its expiry. |
| `DailyBudget.BudgetStore.IncrementDailyBudget` | packages/api/src/ai-budget.ts:264-280 | One more run for the organization and day. |
| `DailyBudget.BudgetStore.ReserveTokenAndCost` | packages/api/src/ai-budget.ts:24-46 | Both counters move, or neither does if a limit would be passed or an argument is out of range. |
| `DailyBudget.BudgetStore.ReserveRunTokenAndCost` | packages/api/src/ai-budget.ts:48-77 | The same for three counters. |
| `DailyReservations.TokensAndCostExactly` | packages/api/src/ai-budget.ts:24-46 | Admitted if and only if all amounts and limits are from 1 to 2^53-1 and each counter of the UTC day stays within its own limit; then both counters grow by their amounts and the first amount sets the expiry, otherwise no counter changes. |
| `DailyReservations.RunTokensAndCostExactly` | packages/api/src/ai-budget.ts:48-77 | The same for runs, tokens and cents. |
| `DailyReservations.RunExactly` | packages/api/src/ai-budget.ts:16-22 | A run alone is always counted. |
| `DailyBudget.CountersAreExact` | packages/api/src/ai-budget.ts:24-77 | In every timely run a counter, while its day lasts, is the sum of the amounts admitted for it, and it expires no earlier than the midnight that ends its day. |
| `DailyBudget.AdmissionRespectsLimit` | packages/api/src/ai-budget.ts:287-427 | An admitted reservation leaves the amount admitted for each of its counters within the limit it named. |
| `DailyCap.RefusalLeavesNoTrace` | packages/api/src/ai-budget.ts:24-77 | A refused call leaves no trace in any run: what all later calls are answered, and the counters after them, are the same without it. |
| `DailyCap.LagsExactly` | packages/api/src/ai-budget.ts:24-77 | In every run, whatever the times of its scripts, a counter shows less than was admitted if and only if its key was charged and it has expired, by then or when it was charged before. |
| `DailyCap.CapHoldsWithoutRestart` | packages/api/src/ai-budget.ts:24-77 | Under a fixed limit no more is admitted for a key in any run that does not charge an expired counter of it again. |
| `DailyCap.CapFailsExactly` | packages/api/src/ai-budget.ts:24-77 | In every run that has not passed the cap yet, for runs, tokens and cents alike, one more request can pass it at a time if and only if the key was charged and its counter has expired, by then or when it was charged before (for runs, which count one by one: and all of them have been admitted). |
| `DailyCap.RestartedCounterOvershoots` | packages/api/src/ai-budget.ts:287-348 | The input: three requests of one day, the second of which restarts the counter and the third of which passes the cap although the counter is alive. |
| `DailyCap.TimelyRunsDoNotRestart` | packages/api/src/ai-budget.ts:287-427 | Scripts that run before the day of their request has ended never charge an expired counter. |
| `DailyCap.DailyCapHolds` | packages/api/src/ai-budget.ts:287-427 | So under a fixed limit the amount admitted for a key never exceeds it in any timely run. |
| `DailyBudget.LateRequestOvershoots` | packages/api/src/ai-budget.ts:287-348 | The input: a second request one second after midnight, for the day before, is admitted beyond the limit. |
| `Changelog.MergeReleaseNotesIntoChangelog` | scripts/version-release-helpers.ts:9-78 | The splicing of lines returns the specified merge, or throws where the section "Unreleased" is missing. |
| `Changelog.NoteLines` | scripts/version-release-helpers.ts:46-48 | The lines spliced in are the notes with a blank line before each. |
| `ChangelogCases.NewSection` | scripts/version-release-helpers.ts:59-78 | Without a section of the release: below the first "## Unreleased" come a blank line, the title, each note behind a blank line, and a blank line; without that line, and only then, nothing can be merged. |
| `ChangelogCases.ExistingSection` | scripts/version-release-helpers.ts:17-58 | With one: exactly the notes that do not occur in it are added, in their order, each behind a blank line, at its end in front of the blank line that ends it if one does. |
| `ChangelogCases.NoNotes` | scripts/version-release-helpers.ts:42-44 | Without notes only the line ends change. |
| `ChangelogCases.WindowsLineEnd` | scripts/version-release-helpers.ts:15 | A Windows line end becomes a line feed, wherever it stands. |
| `ChangelogCases.OtherCharacter` | scripts/version-release-helpers.ts:15 | Every other character is kept. |
| `ChangelogLaws.MergeInsertsOneBlock` | scripts/version-release-helpers.ts:9-78 | A merge keeps every line and inserts one contiguous block: at the end of the section of the release, in front of its last blank line, or with the title of a new section right below the first "Unreleased". |
| `ChangelogFixpoints.MergeIdempotentExactly` | scripts/version-release-helpers.ts:9-78 | For every changelog, version, notes and date: merging twice is merging once if and only if no line of the changelog or of what is brought in ends in a carriage return, the very last aside, and either no note was to be added or the version has one line and the added notes bring in no line that looks like a heading, or are all found in front of the first such line. |
| `ChangelogFixpoints.UnchangedExactly` | scripts/version-release-helpers.ts:15-44 | A merge leaves any text alone if and only if the text has normal line ends and there is nothing to add. |
| `ChangelogFixpoints.NormalExactly` | scripts/version-release-helpers.ts:15-16 | A text has normal line ends if and only if no line but the last ends in a carriage return. |
| `ChangelogFixpoints.MergedSectionHoldsExactly` | scripts/version-release-helpers.ts:9-78 | After a merge the section of the release is found and includes every note under exactly the condition on the version and the added notes. |
| `ChangelogFixpoints.BroughtHeadless` | scripts/version-release-helpers.ts:46-78 | With a version and a date of one line, what looks like a heading comes from the added notes alone. |
| `ChangelogFixpoints.MergeIdempotent` | scripts/version-release-helpers.ts:9-78 | The condition holds without carriage returns, for one-line versions and dates and notes without lines that look like headings. |
| `ChangelogFixpoints.HeadingNoteNeverSettles` | scripts/version-release-helpers.ts:39-44 | A note with a heading behind its first line is added by every merge, whatever the changelog. |
| `ChangelogFixpoints.ReturnNoteNeverSettles` | scripts/version-release-helpers.ts:15-44 | So is a note with a carriage return in front of a line break. |
| `ChangelogFixpoints.NotesAddedAgain` | scripts/version-release-helpers.ts:9-78 | The inputs: two such notes on a fresh changelog, for which merging twice is not merging once. |
| `ChangelogFixpoints.BrokenVersionAddsAgain` | scripts/version-release-helpers.ts:17-20 | With a line break in the version every merge adds the notes again. |
| `ManagedNetwork.AcceptsMadeExactly` | apps/docker-broker/resource_network.go:151-214 | What one request creates is accepted by another of the same name if and only if both ask for the same resource and, where one names a project, the same project and kind of label. |
| `ManagedNetwork.DockerEngineClient.EnsureNetwork` | apps/docker-broker/resource_network.go:151-237 | Inspect, create, inspect again: answer and daemon are those of the stepwise call, whichever answers are lost and whatever another client creates in between. |
| `ManagedNetwork.WholeSucceedsExactly` | apps/docker-broker/typed.go:1108-1169 | With all requests answered a call succeeds if and only if the network of its name is one it accepts, be it old, its own or a rival's; it reports "created" exactly if it created it. |
| `ManagedNetwork.FoundIsJudged` | apps/docker-broker/resource_network.go:165-204 | A call that finds a network of its name, there before or a rival's, succeeds if and only if ID, driver, scope, attachability and encryption, and for a resource name and labels, are as listed field by field; either way the network is left alone. |
| `ManagedNetwork.NewNetwork` | apps/docker-broker/resource_network.go:206-236 | A call that finds none makes an encrypted, attachable overlay network with its name, labels and internal flag, if its request arrives, and reports it, if the answer does. |
| `ManagedNetwork.UnansweredInspection` | apps/docker-broker/resource_network.go:199-204 | A call whose inspection is not answered makes nothing. |
| `ManagedNetwork.OverlayNames` | apps/docker-broker/resource_network.go:239-264 | The name is the fixed prefix and the identifier in lower case, with a hyphen for every other character, cut at 63 characters. |
| `ManagedNetwork.RunKeepsInv` | apps/docker-broker/resource_network.go:151-237 | Every interleaving of any number of calls and of other clients keeps the invariant on replies and networks. |
| `ManagedNetwork.NetworksStay` | apps/docker-broker/resource_network.go:151-237 | No call changes or replaces a network that exists. |
| `ManagedNetwork.OneCallCreates` | apps/docker-broker/resource_network.go:151-237 | In every run at most one call reports that it created the network of a name. |
| `ManagedNetwork.SuccessesAgree` | apps/docker-broker/resource_network.go:151-237 | All successful calls for a name return the ID of one network, which has the fields that each of them asks for. |
| `ManagedNetwork.ForeignIsRefused` | apps/docker-broker/resource_network.go:151-237 | A network without the fields that a request asks for, whenever it appeared, makes its call fail and stays unchanged. |
| `ManagedNetwork.AnsweredCallsSucceedExactly` | apps/docker-broker/resource_network.go:151-237 | A call all of whose requests were answered succeeds if and only if the network of its name has the fields it asks for. |
| `ManagedNetwork.CompatibleCallsSucceedExactly` | apps/docker-broker/resource_network.go:151-237 | Where one of the callers made the network, the answered calls that succeed are exactly those compatible with the maker. |
| `AlertMonitor.OperationalMonitor.DropCleared` | apps/schedules/src/health.ts:419-421 | Of the active keys those remain that are evaluated now. |
| `AlertMonitor.OperationalMonitor.SendNew` | apps/schedules/src/health.ts:422-427 | Each alert whose key is neither active nor sent by this check is sent, in order, and its key becomes active, up to and including the first whose callback throws. |
| `AlertMonitor.OperationalMonitor.Finish` | apps/schedules/src/health.ts:397-428 | A check keeps the active keys that are evaluated again and adds those it comes to; a failing evaluation counts as one alert of its own. |
| `AlertMonitor.OperationalMonitor.Check` | apps/schedules/src/health.ts:394-428 | Without throwing callbacks the evaluated keys are active and the new ones sent; nothing happens once the monitor is stopped. |
| `AlertMonitor.SentOnce` | apps/schedules/src/health.ts:422-427 | However often an evaluation repeats a key, the key is sent once if it is new and not at all otherwise. |
| `AlertMonitor.FirstIsSent` | apps/schedules/src/health.ts:422-427 | The alert sent for a new key is the first one with that key. |
| `AlertMonitor.KeysDistinguish` | apps/schedules/src/health.ts:414-424 | Two alerts share a key if and only if they have code and queue in common. |
| `AlertMonitor.AlertedExactly` | apps/schedules/src/health.ts:414-427 | The first alert of a code and a queue is sent if and only if the evaluation before had none of that code and queue. |
| `AlertMonitor.FailureIsAlerted` | apps/schedules/src/health.ts:397-428 | When the status cannot be read one alert says so, unless it is active already, and every other key is cleared. |
| `AlertMonitor.SendsAreRisingEdges` | apps/schedules/src/health.ts:381-428 | Over any overlapping checks, whichever callbacks throw, the number of times a key was sent is the number of rising edges of the active set. |
| `AlertMonitor.QuietRunsFollowEvaluations` | apps/schedules/src/health.ts:397-428 | While no callback throws, the active set always is the last evaluated one, so that the edges are those of the evaluations. |
| `AlertMonitor.StopEndsChecks` | apps/schedules/src/health.ts:394-440 | After a stop no check begins; only those that were waiting may still finish, each once. |
| `ArchiveSwap.ValidateExtractedTree` | apps/server/src/application-archive.ts:161-178 | The visit accepts exactly the trees that hold nothing but directories and regular files, at every depth. |
| `ArchiveSwap.SwapIsAtomicExactly` | apps/server/src/application-archive.ts:199-218 | Whichever renames and removals fail, the target is the old tree or the whole new one if and only if it is not the case that moving in and moving back both fail; then it is gone. |
| `ArchiveSwap.ArchiveExtractor.SwapIn` | apps/server/src/application-archive.ts:199-218 | Try, catch and finally leave the directories, the answer and the counter that the swap specifies. |
| `ArchiveSwap.ArchiveExtractor.Finally` | apps/server/src/application-archive.ts:214-218 | Staging and previous directory are removed and the slot is given back, unless a removal throws first. |
| `ArchiveSwap.ArchiveExtractor.ExtractApplicationArchive` | apps/server/src/application-archive.ts:180-219 | The whole extraction, for every step that may fail, without others in between. |
| `ArchiveCases.PlainExactly` | apps/server/src/application-archive.ts:161-178 | A tree is plain if and only if no path in it leads to anything but directories and regular files. |
| `ArchiveCases.WholeSucceedsExactly` | apps/server/src/application-archive.ts:180-219 | An extraction succeeds if and only if a slot is free, every step before the swap succeeds, the tree is a plain directory and no step of the swap fails; then the tree is in place. One that fails before the swap leaves the target alone. |
| `ArchiveCases.UndisturbedIsWhole` | apps/server/src/application-archive.ts:180-219 | The moves of a call, one after the other, end as the whole extraction does. |
| `ArchiveCases.InstalledExactly` | apps/server/src/application-archive.ts:196-206 | In every state a move installs a tree if and only if it completes an extraction of a plain directory and neither rename fails. |
| `ArchiveSwap.RunKeepsInv` | apps/server/src/application-archive.ts:180-219 | Every interleaving of extractions keeps slots counted, temporary directories owned, targets as the events say and installed trees checked. |
| `ArchiveSwap.TargetsAreWhole` | apps/server/src/application-archive.ts:180-219 | While restores work, a target is at all times its first tree or the whole, checked tree of an extraction into it. |
| `ArchiveSwap.NothingIsLeftBehind` | apps/server/src/application-archive.ts:180-219 | While clean-ups work, the counter is the number of running extractions, between 0 and 2; only these have a staging directory, no previous directory remains, and after the last one nothing does. |
| `ArchiveSwap.SwapLeaksExactly` | apps/server/src/application-archive.ts:202-218 | A swap installs the new tree if and only if no rename fails, and keeps its slot if and only if the removal of a tree that did not go in, or of an old one left aside, fails. |
| `ArchiveSwap.LeakedExactly` | apps/server/src/application-archive.ts:180-219 | In every run the slots never given back are those of exactly the calls in whose clean-up a removal failed. |
| `ArchiveSwap.CounterReturnsExactly` | apps/server/src/application-archive.ts:214-218 | When all extractions have ended, the counter is back at its starting value if and only if no such removal failed. |
| `ArchiveSwap.AdmittedExactly` | apps/server/src/application-archive.ts:183-197 | An extraction is let in if and only if running ones and slots never given back are fewer than two. |
| `ArchiveSwap.TreesCanBeLost` | apps/server/src/application-archive.ts:202-218 | The input: both the move in and the move back fail, and neither tree is left. |
| `ArchiveSwap.TwoLeaksShutOut` | apps/server/src/application-archive.ts:180-219 | The run: two extractions whose staging directory can be neither made nor removed shut out every further one. |

## Left out

- MergeIdempotent: a sufficient condition in plain words; MergeIdempotentExactly has no assumption.
- CountersAreExact: is about runs in which every script executes before the day of its request has ended and in which the clock of Redis does not go back; LagsExactly says what happens in any run.
- DailyCapHolds: assumes one fixed limit for the key, as one configuration of an organization gives.
- CallsStayConsistent: is about calls one after the other, and assumes that a failed reload leaves Caddy alone and that rollbacks work; Applied gives the exact condition for one call.
- MisleadableExactly: commands fail there only where the files make them fail; failing commands and overlapping calls are not combined.
- TearableExactly: is about two calls, and about commands that fail only where the files make them fail.
- CapFailsExactly: assumes that the other counters leave room for one unit, without which a request is refused for their sake.
- TargetsAreWhole: assumes that moving the old tree back works where it is tried; SwapIsAtomicExactly says what happens otherwise.
- NothingIsLeftBehind: assumes that the removals of the clean-up work; LeakedExactly and CounterReturnsExactly say what happens otherwise.
- SuccessesAgree: no network is removed during the run; removal and its retry loop are not modelled.
- EnsureNetwork: one method stands for `ensureResourceNetwork` and `ensureManagedSwarmNetwork`, which send the same requests; networks are found by name, not by ID or ID prefix, and a lost answer is one failure whatever its cause.
- ForgedHopsIgnored: forged hops are ones within the limits of 20 hops and 4096 characters; beyond them the code does not walk at all.
- Finish: the thresholds of `evaluateOperationalAlerts` are not modelled; its result is an argument.
- RunsFollowTheLife: says nothing about liveness when user codes collide or keys expire; codes are values, not hashes.
- Execute: the replies of Redis that are no numbers, the "-1" encoding of a refusal, metrics and cost formulas are not modelled.
- CheckAndSwap: the listing checks of the archive (sizes, paths, duplicates, compression ratio) are one outcome of the step before.
- HTTP, TLS, process spawning, SSH, SQL, queues, logging and telemetry: foreign calls.
- Cryptography: abstracted as said above.
- `pglite-lock.ts`, the terminal broker, `WorkerManager`: rest on orderings of the operating system that the code does not fix.
- Field allowlists of typed requests, permission tables and route allowlists: each is settled by reading one branch.
- Error texts and locations: only whether a call fails, and at which command, is modelled.
- Web UI, prompts, setup and release scripts other than the changelog merge.
