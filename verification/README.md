# ZimaScope verification

A Dafny model of the parts of ZimaScope whose correctness is hard to see from one
function: the packet path (`zimascope-ebpf`), the ingest and read model and the
policy compiler (`zimascoped`), and the live-stream connection of the user
interface (`frontend`). `dafny verify dfyconfig.toml` checks the whole project.

Code that updates state step by step is a class or a method with loops, proved
against a specification function; what the system promises is then proved about
those functions, over every input or every run.

| file | what it models |
|---|---|
| `Common.dfy`, `Sums.dfy` | machine integers and shared vocabulary; totals over the rows of a map |
| `TokenBucket.dfy` | the rule state of a Traffic Rule: refill, enforcement, reconfiguration |
| `RuleLookup.dfy` | the tiered lookup of the rule that applies to a packet |
| `PacketPath.dfy` | the TC hook: parse, judge, record, count |
| `FlowHistory.dfy` | what the Flow entries hold of the packets recorded in a run, and where its bytes went |
| `Cursors.dfy` | bounded reads, the slice cursor and the 64-bit pointer cursor of the hook |
| `PacketParser.dfy` | Ethernet, VLAN, IPv4, TCP and UDP headers |
| `Dns.dfy`, `Sni.dfy`, `HttpHost.dfy` | the domain parsers over partial payloads |
| `PolicyDiff.dfy` | the ordered operations between two compiled programs, and what each prefix keeps |
| `PolicyOutcome.dfy` | what the whole list of operations leaves in the kernel maps |
| `HookSet.dfy` | attaching, reconciling and detaching boundary hooks |
| `EvidenceCache.dfy` | deduplication of domain evidence |
| `DomainOrder.dfy` | normal names and the sort key of domains |
| `Association.dfy` | the Associated Domains chosen for an address |
| `FlowTables.dfy` | the Flow table with its trigger-kept tables, and the policy pass |
| `Rollups.dfy`, `Timeline.dfy` | minute and hour buckets, retention, gap-filled timelines |
| `EntityRates.dfy` | rate windows and the incrementally written rate table |
| `LiveTicks.dfy` | full records and counter patches on the live stream, and the client's replica |
| `LiveStream.dfy` | the event source of the user interface |

## Where a stronger claim is false

Each of these is a lemma with the exact condition, or with the input that shows it.

- The refill product wraps at 64 bits. The rate ceiling needs no bound on the
  rate (a wrapped product credits less), but a rate of 2^55 bytes per second never
  credits after an idle second (`WrappedRateStarves`). Accepted rates are far below.
- An upsert keeps the old tokens, so `tokens <= burst` breaks exactly when a burst
  below the tokens that were read is written (`BurstBoundKeptIff`) and returns with
  the next crediting refill.
- An upsert reads a rule state and writes it back in two steps, and packets in
  between are undone. A spent burst is there again (`StaleWriteRefunds`,
  `LifeRate`), and the kernel's drop counters no longer sum to those of the rules
  (`StaleWriteRun`): the maps alone account for every packet exactly in the runs in
  which no packet is enforced on a key between its read and its write
  (`AccountedIffQuiet`). `RunConserves` holds in all runs, with the undone packets
  on one side.
- The builder of the packet tests pads a tagged frame with IP options four bytes
  short, so parsing inverts it exactly for all other choices (`BuilderRoundTripsIff`);
  a UDP frame of that kind parses to what was meant only when its ports happen to
  be its length and zero (`UdpBuilderRoundTripsIff`).
- `parse_dns_response` takes the answer count for a bound on reported addresses and
  not on visited records, so addresses of later sections are reported too
  (`LaterSectionReported`), except when the answer section has eight records or
  holds A records alone, or when no A record follows among the first eight
  (`OnlyAnswerSectionIff`).
- The server name is bounded by the extension block and not by its own extension.
  It lies in its own extension exactly when that declares at least five bytes more
  than the name (`NameInOwnExtensionIff`); one that declares less is read all the
  same (`NameBehindItsExtension`).
- The comment of `diff` lists the invariants of its order. Every prefix does keep
  live references (`ReferencesStayLive`), but the list does not always lead to the
  next program. An operation is refused exactly when a kernel key is given up twice
  with no rule taking it in between, and a key arrives exactly when the last rule
  that has it takes it with no rule giving it up from there on, or nothing touched
  it and that rule owned it (`DiffRealisesIff`). It fails for two rules that swap
  entries (`SwappedEntryIsLost`), for an entry that two rules share when one leaves
  (`SharedEntryIsLost`) or both do (`SharedEntryIsRefused`), and for a CIDR entry
  spelled with other host bits (`RespelledEntryIsLost`). Between programs that
  share no key only entries that move forward are lost (`DisjointIff`). The states
  of a direction that a rule gives up stay in the map.
- Evidence and confidence of a chosen domain follow the order of the rows exactly
  when a live row ties with a chosen one and was learned otherwise
  (`LabelsFixedIff`, `LabelsFollowTies`).
- Interface totals saturate while the rows of a Flow do not, so endpoint rows sum
  to the boundary rows exactly when the totals hold what the Flows moved
  (`IngestAgreesIff`); fewer than 2^63 packets and bytes per interval suffice.
- A retention pass and a clear are statements that commit one by one. Endpoint rows
  sum to boundary rows throughout a run exactly when each event keeps that
  (`RunAgreesIff`): a pass that fails between the two tables breaks it exactly when
  it deleted a boundary row that held something (`SweepAgreesIff`), a clear exactly
  when some boundary row did (`ClearAgreesIff`, `InterruptedRuns`). The next
  completed pass repairs the former (`RunKeepsYoung`).
- The live signature joins names with `|` and `:`, and normal domain names may
  contain both. Each signature is that of exactly one unambiguous description, and
  of another one exactly for descriptions in which a domain holds `|` after text
  that ends in a tag or in an application, or that stands for no application
  (`SignatureTellsDetails`; in lower-case names only the latter two,
  `LowerCaseAmbiguousIff`). Clients get every descriptive field right in all runs
  over a set of descriptions exactly when signatures tell its open ones apart
  (`RunsAgreeIff`); the unambiguous ones are the largest such set that has them all
  (`PlainIsLargest`). Fields in neither signature nor patch, such as the duration,
  stay as the last full record had them (`PatchCompletesIff`).
- A subscriber's filter is applied after full records and patches were told apart
  for all subscribers. A Flow that comes to match while its signature stays reaches
  that subscriber as a patch of a record it never had (`LateMatchIsLost`); filtered
  clients agree on every matching Flow exactly for filters that look at nothing
  that can change while the signature stays (`FilteredAgreesIff`).
- `clear_history` empties the in-memory mirror however far its statements got; the
  mirror is the table throughout a run exactly when every clear got as far as the
  rate table or found it empty (`MirrorsThroughoutIff`); otherwise rows of idle
  entities outlive every later write (`StaleRowsPersist`).
- With a window of one interval, rolling forgets every entity (`RollForgetsAll`).

## Model

| member | source | states |
|---|---|---|
| TokenBucket.RuleState.Refill | zimascope-ebpf/src/policy.rs:204-213 | updates tokens and refill clock in place, with the 64-bit product, the one-second cap and the clip at the burst; from a bucket within its burst whose product fits, it leaves min(tokens + elapsed * rate / 10^9, burst) |
| TokenBucket.RuleState.DropPacket | zimascope-ebpf/src/policy.rs:216-219 | counts a dropped packet, saturating |
| TokenBucket.RuleState.Enforce | zimascope-ebpf/src/policy.rs:166-201 | one atomic enforcement: refill, count, then pass or drop |
| TokenBucket.RefillLeaves | zimascope-ebpf/src/policy.rs:204-213 | with a rate whose product fits, a refill leaves min(tokens + due, burst) when a byte is due and everything alone otherwise, where due is min(now - last, 10^9) * rate / 10^9; the clock moves with a credit |
| TokenBucket.LimitPassesIff | zimascope-ebpf/src/policy.rs:166-213 | after any packets, a limit packet passes exactly when the tokens held and due, clipped at the burst, cover its length; what passes is paid for and what is dropped costs nothing |
| TokenBucket.FullBurstPasses | zimascope-ebpf/src/policy.rs:166-213 | after any packets, one of at most the burst passes once min(now - last refill, 10^9) * rate >= 10^9 * burst |
| TokenBucket.BlockDrops | zimascope-ebpf/src/policy.rs:166-201 | after any packets, a packet of a block rule is dropped and counted whatever the tokens |
| TokenBucket.UpsertTakesEffect | zimascoped/src/collector/aya.rs:532-554 | after any life of a key, an upsert decides the next packet by its own rate and burst, with the tokens and clock that were there, or a full burst for a new state |
| TokenBucket.RateCeiling | zimascope-ebpf/src/policy.rs:166-213 | after any packets at any timestamps, passed bytes plus tokens are covered by the initial tokens and the rate over the refill clock |
| TokenBucket.WindowCeiling | zimascope-ebpf/src/policy.rs:166-213 | from a packet at t1 to t2, a bucket within its burst passes less than burst + rate * (t2 - t1) + 1 bytes |
| TokenBucket.RefillOnce | zimascope-ebpf/src/policy.rs:204-213 | refilling twice at one instant credits once |
| TokenBucket.RefillAdvancesIff | zimascope-ebpf/src/policy.rs:204-213 | the refill clock advances exactly when a whole byte is due |
| TokenBucket.ValidRateCredits | zimascoped/src/policy/mod.rs:118-137 | every accepted limit rate credits a packet 244141 ns after the last credit |
| TokenBucket.WrappedRateStarves | zimascope-ebpf/src/policy.rs:208 | a rate whose one-second product wraps to zero never credits after an idle second |
| TokenBucket.RoundingKeepsHalf | zimascope-ebpf/src/policy.rs:204-213 | with credit gaps of at most a second and no clipping, rounding costs at most half of the configured credit over a run |
| TokenBucket.LifeCeiling | zimascoped/src/collector/aya.rs:532-561 | over two-step upserts, removals, re-creations and packets, passed, forfeited and held bytes are covered by granted bursts, what stale writes put back, and earned credit |
| TokenBucket.LifeRate | zimascope-ebpf/src/policy.rs:166-213 | with rates up to r and packets in order between t1 and t2, those bytes are covered by granted bursts, r * (t2 - t1), one capped second of r per restart of the refill clock, and what stale writes put back |
| TokenBucket.UndisturbedRestoresNothing | zimascoped/src/collector/aya.rs:532-554 | without a packet between a read and its write, no write puts tokens or time back |
| TokenBucket.StaleWriteRefunds | zimascoped/src/collector/aya.rs:532-554 | a full burst spent between a read and its write is there again: two bursts pass on one grant |
| TokenBucket.BurstBoundKeptIff | zimascoped/src/collector/aya.rs:532-554 | an event breaks tokens <= burst exactly when it writes a burst below the tokens that were read |
| TokenBucket.CreditingRefillRestoresBurst | zimascope-ebpf/src/policy.rs:204-213 | a refill ends within the burst exactly when it credits or the bucket already was |
| TokenBucket.SplitUpsertIsAtomicIff | zimascoped/src/collector/aya.rs:532-554 | the two-step upsert equals an atomic one exactly when no packet came in between |
| RuleLookup.LongestPrefixIsLongest | zimascope-ebpf/src/policy.rs:128-163 | the CIDR rule found has the longest prefix that holds the address |
| RuleLookup.OwnerFound | zimascope-ebpf/src/policy.rs:78-125 | the owner found is exactly the one whose socket entry has the remote end of the packet and, for TCP, its local port, or for TCP without such an entry the one listening on the local port |
| RuleLookup.FoundIffApplies | zimascope-ebpf/src/policy.rs:59-163 | the lookup of an entry succeeds exactly when it applies: its direction is that of the packet, and it names the cgroup or process of its owner, its remote address with its port or any, or addr / 2^(32 - len) of an IPv4 remote address, the remote end being the destination outbound and the source inbound |
| RuleLookup.ChosenIsMostSpecific | zimascope-ebpf/src/policy.rs:36-163 | the rule found is that of an entry that applies to the packet, and no applicable entry is more specific; none is found exactly when none applies in an enabled tier |
| RuleLookup.LookupRefinesScan | zimascope-ebpf/src/policy.rs:36-163 | the tiered lookup returns what a linear scan of all entries returns that keeps the most specific applicable one |
| RuleLookup.FlagsSkipNothing | zimascope-ebpf/src/policy.rs:36-57 | tier flags that are off only for empty tiers change no result |
| PacketPath.Hook.Enforce | zimascope-ebpf/src/policy.rs:166-201 | enforces on the state of the rule and direction, or counts a missing state and lets the packet pass |
| PacketPath.Hook.UpdateFlow | zimascope-ebpf/src/tc.rs:101-123 | records the packet, its flags and whether its payload is sampled in its Flow entry, or reports that no entry fits |
| PacketPath.Hook.Process | zimascope-ebpf/src/tc.rs:45-82 | updates maps and counters in place exactly as the step function over their values |
| PacketPath.RunConserves | zimascope-ebpf/src/tc.rs:45-119 | over any run, short of saturation and wherever packets fall between the read and the write of an upsert: seen = parsed + skipped + failures, parsed = dropped + recorded + refused, rule drops and undone drops sum to the kernel's, matched + undone = passed + dropped per live state |
| PacketPath.AccountedIffQuiet | zimascoped/src/collector/aya.rs:532-554 | the maps alone account for every drop and match after each event of a run exactly when no upsert of it has a packet enforced on its key between read and write |
| PacketPath.StaleWriteRun | zimascoped/src/collector/aya.rs:532-554 | a packet blocked between the two steps of an upsert: the kernel counts one drop and no rule does |
| PacketPath.DropNeedsLiveRule | zimascope-ebpf/src/policy.rs:36-57 | a packet is dropped exactly when an enabled matched rule with live state blocks it or has too few tokens |
| FlowHistory.RunSummarises | zimascope-ebpf/src/tc.rs:101-191 | after every run the Flow map holds exactly the Flows with a packet recorded since their last eviction; each entry has their number, the sum of their lengths (both saturating), the times of the first and the last, the union of their flags, and whether one was sampled |
| FlowHistory.RunKeepsBytes | zimascope-ebpf/src/tc.rs:45-119 | over every run, short of saturation: bytes let through = bytes in the Flow map + evicted + refused, and parsed = without a rule + missing state + judged |
| Cursors.SliceAt | zimascope-ebpf/src/tc.rs:412-431 | the bounded offset and the two wrapping additions accept exactly the bytes inside the packet and below the offset limit |
| Cursors.ReadsAreSums | zimascope-ebpf/src/parse.rs:123-140 | a read is the positional sum of the captured bytes, most significant first, and fails exactly where one of them is not captured |
| Cursors.BigEndian | zimascope-ebpf/src/parse.rs:310-320 | the printed bytes of a word are its quotients and remainders, most significant first |
| Cursors.AgreeReads | zimascope-ebpf/src/parse.rs:75-106 | cursors that agree on a window agree on every read inside it |
| Cursors.AgreeBytes | zimascope-ebpf/src/parse.rs:75-106 | cursors that agree on a window agree on every copy inside it |
| Cursors.CopyBytes | zimascope-ebpf/src/domain.rs:160-172 | copies captured bytes one by one and stops at a missing one |
| PacketParser.ParseInvertsPrint | zimascope-ebpf/src/parse.rs:155-294 | any valid headers, followed by anything, parse to what they mean |
| PacketParser.FlowIffPrinted | zimascope-ebpf/src/parse.rs:155-294 | a capture parses to a flow exactly when it starts with valid headers that mean that flow |
| PacketParser.ResultIff | zimascope-ebpf/src/parse.rs:155-294 | from the raw bytes: skipped exactly for what is not IPv4, not a first fragment, or neither TCP nor UDP; invalid exactly for a wrong version, header length, total length or data offset; a flow exactly for complete headers; and otherwise truncated |
| PacketParser.FlowFields | zimascope-ebpf/src/parse.rs:155-294 | every field of a flow is read off its place in the capture |
| PacketParser.DecidedByPrefix | zimascope-ebpf/src/parse.rs:155-294 | a result other than Truncated is unchanged by capturing more bytes |
| PacketParser.PointerCursorAgrees | zimascope-ebpf/src/tc.rs:401-452 | the pointer cursor with its offset limit gives the result of the slice cursor on every packet |
| PacketParser.PayloadOrdered | zimascope-ebpf/src/parse.rs:178-294 | the payload starts inside the capture and not after its end |
| PacketParser.BuilderRoundTripsIff | zimascope-ebpf/src/parse.rs:334-419 | parsing inverts the builder of TCP frames for both tag types, every header length and every data offset, except a tagged frame with IP options |
| PacketParser.UdpBuilderRoundTripsIff | zimascope-ebpf/src/parse.rs:334-419 | parsing inverts the builder of UDP frames with any payload, except a tagged one with IP options unless its ports happen to be its length and zero and it carries four bytes |
| Dns.ReadQuestionName | zimascope-ebpf/src/domain.rs:136-177 | the label loop returns the dotted question name and where it ends, or nothing |
| Dns.SkipAnswerName | zimascope-ebpf/src/domain.rs:180-211 | skips a plain or compressed owner name |
| Dns.ReadAnswers | zimascope-ebpf/src/domain.rs:79-130 | visits records until enough addresses were emitted or the limit of visits is met |
| Dns.ParseDnsResponse | zimascope-ebpf/src/domain.rs:38-133 | the whole response parser against its specification |
| Dns.DnsInWindow | zimascope-ebpf/src/domain.rs:38-211 | the answers depend on the bytes of [offset, end) alone |
| Dns.QuestionNameReadIff | zimascope-ebpf/src/domain.rs:136-177 | a printed name is read back exactly when it has at most 15 labels and 253 bytes |
| Dns.ParseInvertsPrint | zimascope-ebpf/src/domain.rs:38-133 | a printed message (sections 4.1 and 4.1.4 of RFC 1035) yields exactly what its records mean, and nothing when it is a query or counts no question or no answer |
| Dns.PrintedIsReported | zimascope-ebpf/src/domain.rs:38-133 | whatever follows a printed message in the window, what its records mean is reported first |
| Dns.ReportedIsPrinted | zimascope-ebpf/src/domain.rs:38-211 | whatever the bytes, if any address is reported then a response stands at the start of the window and the report is what its records mean |
| Dns.AllAddresses | zimascope-ebpf/src/domain.rs:461-486 | a message of n A/IN answers yields exactly the first min(n, 8) triples of question name, TTL and address, in order |
| Dns.OnlyAnswerSectionIff | zimascope-ebpf/src/domain.rs:79-130 | when a message is read as it would be without its later sections |
| Dns.LaterSectionReported | zimascope-ebpf/src/domain.rs:79-130 | a response with one CNAME answer and an A record in a later section: that address is reported |
| Sni.ReadHostName | zimascope-ebpf/src/domain.rs:285-309 | copies the host name of a server_name extension |
| Sni.LocateExtensions | zimascope-ebpf/src/domain.rs:221-268 | walks record, handshake, session, ciphers and compression to the extension block |
| Sni.ExtractTlsSni | zimascope-ebpf/src/domain.rs:215-316 | the whole parser against its specification |
| Sni.SkipVector8InWindow | zimascope-ebpf/src/domain.rs:238-246 | a length byte read at the window's end cannot change the result |
| Sni.SniInWindow | zimascope-ebpf/src/domain.rs:215-316 | the name depends on the bytes of [offset, end) alone |
| Sni.SniInvertsPrint | zimascope-ebpf/src/domain.rs:488-528 | any ClientHello (section 3 of RFC 6066, section 4.1.2 of RFC 8446) whose declared lengths end in the window yields exactly its name when that has 1 to 253 bytes and at most 15 extensions come first, and nothing otherwise |
| Sni.NameIff | zimascope-ebpf/src/domain.rs:215-316 | whatever the bytes, a name is reported exactly when a ClientHello with that name stands at the start of the window, with its declared lengths inside the window, fewer than 16 extensions before the name and 1 to 253 bytes in it |
| Sni.NameInOwnExtensionIff | zimascope-ebpf/src/domain.rs:271-309 | a reader confined to the extension finds the name too exactly when the extension declares at least five bytes more than the name |
| Sni.NameBehindItsExtension | zimascope-ebpf/src/domain.rs:271-309 | a name behind an extension of five bytes is found |
| HttpHost.FindCrlf | zimascope-ebpf/src/domain.rs:436-451 | the first line end among 512 positions |
| HttpHost.CopyValue | zimascope-ebpf/src/domain.rs:359-377 | the end of the value, and its first 253 bytes in the buffer |
| HttpHost.TrimBlanks | zimascope-ebpf/src/domain.rs:379-381 | the value without trailing blanks |
| HttpHost.ExtractHttpHost | zimascope-ebpf/src/domain.rs:319-388 | the whole parser against its specification |
| HttpHost.HttpHostInWindow | zimascope-ebpf/src/domain.rs:319-451 | the host depends on the first 512 bytes of [offset, end) alone |
| HttpHost.HttpHostInvertsPrint | zimascope-ebpf/src/domain.rs:319-388 | a request yields the first 253 bytes of its host value without port and trailing blanks, unless 16 headers come first |
| HttpHost.HostIff | zimascope-ebpf/src/domain.rs:319-451 | whatever the bytes, a host is reported exactly when a request with that host stands at the start of the window: a recognised method, fewer than 16 headers before `host:`, and a value that ends within the first 512 bytes, cut after 253 bytes and bare of trailing blanks |
| HttpHost.MethodsAre | zimascope-ebpf/src/domain.rs:390-413 | the recognised first four bytes are those of the eight methods |
| HttpHost.CharactersAre | zimascope-ebpf/src/domain.rs:319-434 | the field name in any letter case, blanks, and what ends a value, by their characters |
| HttpHost.HostRoundTripsIff | zimascope-ebpf/src/domain.rs:319-388 | the host value comes back whole exactly when it has 1 to 253 bytes, ends in no blank and fewer than 16 headers come first |
| PolicyDiff.Diff | zimascoped/src/policy/mod.rs:287-358 | pushes the operations in their specified order |
| PolicyDiff.ReferencesStayLive | zimascoped/src/policy/mod.rs:282-358 | after every prefix, even one cut short by a refused operation, each match entry refers to an existing rule state; states of kept rules are never removed |
| PolicyDiff.SwitchedOffFirstOnLast | zimascoped/src/policy/mod.rs:289-355 | inside the list enforcement is on exactly if it was on and stays on |
| PolicyOutcome.OutcomeByFate | zimascoped/src/policy/mod.rs:287-358 | from any kernel that holds the previous states, the list is refused exactly when the fate of some key is, rule by rule, and otherwise every key meets its fate |
| PolicyOutcome.DiffRealisesIff | zimascoped/src/policy/mod.rs:287-358 | for any two programs, shared entries included: an operation is refused exactly when a key is given up twice with no rule taking it in between, otherwise the rates arrive, and the next program runs exactly when moreover each key arrives |
| PolicyOutcome.KeysAreNext | zimascoped/src/policy/mod.rs:287-358 | after the list every match entry in the kernel is one of the next program |
| PolicyOutcome.FinalConfig | zimascoped/src/policy/mod.rs:348-356 | after the list the kernel has the flags of the next program, and its revision clipped to 32 bits |
| PolicyOutcome.NoRuleIsSkipped | zimascope-ebpf/src/policy.rs:36-57 | after any list that runs to its end, the tier flags are off only for empty tiers: the packet lookup finds a rule exactly when some entry in the kernel applies |
| PolicyOutcome.SwappedEntryIsLost | zimascoped/src/policy/mod.rs:324-350 | two rules that swap their entries end with one entry missing |
| PolicyOutcome.DisjointIff | zimascoped/src/policy/mod.rs:287-358 | between programs that share no key nothing is refused, and a key fails to arrive exactly when it moves to a rule in front of its former one or is spelled anew in its place |
| PolicyOutcome.SharedEntryIsLost | zimascoped/src/policy/mod.rs:295-307 | of two rules that share an entry the later one leaves, and the entry is missing |
| PolicyOutcome.SharedEntryIsRefused | zimascoped/src/policy/mod.rs:295-307 | two rules that share an entry both leave, and the second removal is refused |
| PolicyOutcome.RespelledEntryIsLost | zimascoped/src/policy/mod.rs:324-350 | a rule spells its CIDR entry with other host bits, and the entry is missing |
| HookSet.HookManager.AttachOne | zimascoped/src/collector/aya.rs:878-921 | attaches both hooks or leaves neither |
| HookSet.HookManager.DetachLinks | zimascoped/src/collector/aya.rs:924-931 | detaches exactly the links of one interface |
| HookSet.HookManager.AttachInterfaces | zimascoped/src/collector/aya.rs:857-876 | attaches every interface, or detaches everything attached so far |
| HookSet.HookManager.Reconcile | zimascoped/src/collector/aya.rs:402-460 | afterwards the sorted entries are the boundary; healthy ones are kept, the others hold both hooks or an error |
| HookSet.HookManager.Detach | zimascoped/src/collector/aya.rs:482-514 | leaves no link, and succeeds exactly when no detachment was refused |
| HookSet.EveryLinkOnce | zimascoped/src/collector/aya.rs:402-460 | every link ever made is the ingress or egress link of one entry, or was detached once, never both |
| HookSet.HoldsOneMore | zimascoped/src/collector/aya.rs:430-452 | adding an entry with fresh links keeps the accounting |
| HookSet.HoldsOneLess | zimascoped/src/collector/aya.rs:422-428 | dropping an entry leaves exactly the links of the others |
| EvidenceCache.DomainDecoder.Push | zimascoped/src/collector/domain.rs:152-188 | drops fresh repeats, and records and appends everything else |
| EvidenceCache.DomainDecoder.PurgeExpired | zimascoped/src/collector/domain.rs:191-193 | keeps the unexpired entries |
| EvidenceCache.EmitsIff | zimascoped/src/collector/domain.rs:152-188 | with a steady clock, an observation is passed on exactly when no earlier one of its key is unexpired |
| EvidenceCache.PurgesAreTransparent | zimascoped/src/collector/domain.rs:191-193 | with a steady clock, purging changes no emission |
| EvidenceCache.RepeatsAreSpaced | zimascoped/src/collector/domain.rs:152-188 | repeats of a key are separated by its expiry |
| EvidenceCache.RepeatsAtExpiry | zimascoped/src/collector/domain.rs:152-188 | evidence is passed on again exactly from its expiry on |
| EvidenceCache.LivesItsTtl | zimascoped/src/collector/domain.rs:152-210 | a resolved name expires after its TTL, at least ten seconds and at most an hour; a name seen on the wire after five minutes, and only the latter is direct |
| EvidenceCache.RepeatsWaitForTtl | zimascoped/src/collector/domain.rs:208-210 | a repeat comes ten seconds after the observation at the earliest, five minutes for direct evidence |
| EvidenceCache.PurgeMattersWhenClockGoesBack | zimascoped/src/collector/domain.rs:191-193 | the steady clock is needed |
| DomainOrder.JoinEmbeds | zimascoped/src/api/db.rs:4505-4515 | byte order of joined keys is the order of label lists |
| DomainOrder.KeyEmbedsOrder | zimascoped/src/api/db.rs:4505-4515 | for names without NUL, byte order of keys is root-first label order (section 6.1 of RFC 4034) |
| DomainOrder.KeyTellsLabels | zimascoped/src/api/db.rs:4505-4515 | equal keys mean equal labels |
| DomainOrder.LabelsAreTheName | zimascoped/src/api/db.rs:4505-4515 | the labels of a proper name, turned round and joined by dots, are the name |
| DomainOrder.SubdomainIffSuffix | zimascoped/src/api/db.rs:4505-4507 | among proper names, a subdomain is exactly a name that ends in a dot and the parent |
| DomainOrder.ParentHeadsItsSubtree | zimascoped/src/api/db.rs:4505-4507 | a parent sorts before its subdomains, and nothing else comes between them |
| DomainOrder.Normalize | zimascoped/src/collector/domain.rs:223-242 | the checks of the collector decide exactly the proper names |
| DomainOrder.NormalizeIff | zimascoped/src/collector/domain.rs:220-242 | a name is accepted exactly when, without one final dot, it has 1 to 253 bytes of which none is a space, a slash or a control character, and no empty label or one over 63 bytes; the result is that name in lower-case letters |
| DomainOrder.NormalNames | zimascoped/src/collector/domain.rs:220-242 | a normal name has no NUL and is its own normal form |
| DomainOrder.NormalizeIgnoresCase | zimascoped/src/collector/domain.rs:220-242 | names that differ in letter case or one final dot normalise alike |
| Association.PickDomains | zimascoped/src/api/db.rs:3748-3765 | keeps the first row of each of the first eight domains |
| Association.SortedUnique | zimascoped/src/api/db.rs:3740-3745 | there is one sorted arrangement of the keys |
| Association.OrderDoesNotMatter | zimascoped/src/api/db.rs:3710-3768 | for every order of the rows and of ties, the same domains with the same rank and time are chosen |
| Association.PickIsBest | zimascoped/src/api/db.rs:3740-3765 | the choice is distinct, at most eight, by the best row of each domain, and no omitted domain ranks better |
| Association.ShownIsBest | zimascoped/src/api/db.rs:3710-3768 | shown are at most eight current rows of different domains, best first, each the best of its domain, and with fewer than eight every domain with a current row |
| Association.LabelsFixedIff | zimascoped/src/api/db.rs:3740-3765 | evidence and confidence of the choice are the same for every sorted arrangement exactly when no live row ties with a chosen one and was learned otherwise |
| Association.LabelsFollowTies | zimascoped/src/api/db.rs:4813-4818 | on an exact tie the evidence label follows the row order |
| FlowTables.FlowStore.InsertRow | zimascoped/src/api/db.rs:145-184 | an insert with the triggers it fires |
| FlowTables.FlowStore.UpdateRow | zimascoped/src/api/db.rs:153-192 | an update with the triggers it fires |
| FlowTables.FlowStore.DeleteRow | zimascoped/src/api/db.rs:162-200 | a delete with the triggers it fires |
| FlowTables.FlowStore.UpsertFlow | zimascoped/src/api/db.rs:3812-3853 | merges a Flow and keeps the derived tables consistent |
| FlowTables.UpsertsStand | zimascoped/src/api/db.rs:3812-3853 | over any run of upserts the row of a Flow has the columns of the last, the first start, and the last known value where an upsert knows none; no other row changes |
| FlowTables.FlowStore.AssociateAddress | zimascoped/src/api/db.rs:950-965 | relabels exactly the Flows of one address and interface, consistently |
| FlowTables.FlowStore.EnforcePolicy | zimascoped/src/api/db.rs:1347-1388 | afterwards the capacity holds, only the oldest Flows were evicted, and ended Flows follow the history setting |
| FlowTables.FlowStore.ClearHistory | zimascoped/src/api/db.rs:3200-3207 | row deletes empty the derived tables too |
| FlowTables.InsertKeeps | zimascoped/src/api/db.rs:145-184 | an insert keeps both derived tables equal to their recomputation |
| FlowTables.UpdateKeeps | zimascoped/src/api/db.rs:153-192 | so does an update |
| FlowTables.DeleteKeeps | zimascoped/src/api/db.rs:162-200 | so does a delete |
| FlowTables.RunConsistent | zimascoped/src/api/db.rs:137-200 | after any sequence of row operations flow_stats equals the full counts and flow_domains the projection of every row |
| FlowTables.LaterDuplicateWins | zimascoped/src/api/db.rs:145-161 | of duplicate domains in a row the last label is indexed |
| Rollups.BucketStarts | zimascoped/src/api/db.rs:4847-4853 | buckets are aligned, hold their time, and a minute lies in its hour |
| Rollups.UpsertAdds | zimascoped/src/api/db.rs:3927-3957 | an upsert adds its counters to every sum that selects its row |
| Rollups.BucketStore.BookResolution | zimascoped/src/api/db.rs:1087-1125 | books a Flow under its endpoint, application and domains |
| Rollups.BucketStore.Ingest | zimascoped/src/api/db.rs:1062-1134 | books every moved Flow, and the interface totals in any order |
| Rollups.BucketStore.EnforceRetention | zimascoped/src/api/db.rs:1393-1408 | runs the four statements one by one up to one that fails; each deletes exactly the expired rows of its table and resolution |
| Rollups.BucketStore.ClearHistory | zimascoped/src/api/db.rs:3202-3207 | empties the boundary rows with its third statement and the entity rows with its fourth, up to one that fails |
| Rollups.IngestAgreesIff | zimascoped/src/api/db.rs:1062-1134 | an ingest keeps endpoint rows summing to boundary rows exactly when the interface totals hold what the Flows moved |
| Rollups.IngestBooksEntity | zimascoped/src/api/db.rs:1062-1134 | an ingest adds to the rows of an endpoint, application or domain exactly what the Flows that count for it moved, in the minute and the hour of its time |
| Rollups.FittingTotals | zimascoped/src/api/db.rs:4842-4845 | they do while an interval moves fewer than 2^63 packets and bytes |
| Rollups.SaturationBreaksAgreement | zimascoped/src/api/db.rs:4842-4845 | two saturating Flows break it |
| Rollups.SweepAgreesIff | zimascoped/src/api/db.rs:1393-1408 | a pass that stops after any statement keeps endpoint rows summing to boundary rows exactly when it deleted no boundary row that held something and left its endpoint rows |
| Rollups.SweptRows | zimascoped/src/api/db.rs:1393-1408 | after each statement of a pass exactly these rows are gone: boundary before entity rows, minutes two hours old before hours eight days old |
| Rollups.ClearAgreesIff | zimascoped/src/api/db.rs:3202-3207 | so does a clear exactly when it does not stop between the tables, or no boundary row held anything |
| Rollups.RunAgreesIff | zimascoped/src/api/db.rs:1393-1408 | the agreement holds throughout a run exactly when each event keeps it |
| Rollups.InterruptedRuns | zimascoped/src/api/db.rs:1393-1408 | one packet, then a pass that fails after its first statement or a clear after its third: the agreement is broken |
| Rollups.RunKeepsYoung | zimascoped/src/api/db.rs:1393-1408 | wherever passes stopped, the tables agree on every bucket that a pass at now would spare, and a completed pass makes them agree on all |
| Rollups.RunKeepsEndpoints | zimascoped/src/api/db.rs:1062-1134 | after any run of fitting ingests, and passes and clears that do not stop between the tables, endpoint rows sum to the boundary row of each bucket and interface |
| Rollups.RunKeepsHours | zimascoped/src/api/db.rs:1062-1134 | after any run, wherever passes and clears stopped, every hour that no pass reached equals the sum of its minutes, for the boundary and every entity |
| Timeline.FillGaps | zimascoped/src/api/db.rs:3007-3015 | terminates with one point per step, stored or zero |
| Timeline.BucketsTimeline | zimascoped/src/api/db.rs:2937-3021 | the points of a range, aligned, complete and in order |
| Timeline.TimelineSums | zimascoped/src/api/db.rs:2937-3021 | the points of an unfiltered timeline sum to the stored rows of its range |
| Timeline.RangeCovers | zimascoped/src/api/dto.rs:93-105 | a range goes from the minute or hour of its cutoff, 15 minutes to 7 days back, to that of the present |
| Timeline.RunBooksEntity | zimascoped/src/api/db.rs:1062-1134 | over any run without retention the rows of an entity in a bucket hold what the Flows that count for it moved there since the last clear |
| Timeline.RunBooksTraffic | zimascoped/src/api/db.rs:1062-1134 | so does the boundary row of an interface, for totals that fit |
| Timeline.TimelineShows | zimascoped/src/api/db.rs:2937-3021 | whatever retention passes ran up to now, each step of an entity's timeline shows what the Flows that count for it moved in that step since the last clear |
| Timeline.RangeIsRetained | zimascoped/src/api/db.rs:88-90 | a retention pass at or before now deletes no bucket that a range asks for |
| Timeline.RangeBounds | zimascoped/src/api/dto.rs:93-105 | where a range starts and ends |
| Timeline.RetentionSparesTimelines | zimascoped/src/api/db.rs:1393-1408 | whatever passes ran up to now, every timeline is the one an unswept history gives |
| Timeline.RunAligned | zimascoped/src/api/db.rs:1062-1134 | after any run every row stands at a multiple of its step |
| EntityRates.RateWindow.Push | zimascoped/src/api/db.rs:375-384 | starts a sample and drops those beyond the window |
| EntityRates.RateWindow.AddBytes | zimascoped/src/api/db.rs:387-392 | adds to the newest sample and the total |
| EntityRates.RateStore.RollEntityRates | zimascoped/src/api/db.rs:1239-1262 | rolls every window and evicts those left without bytes |
| EntityRates.AddedSumsUp | zimascoped/src/api/db.rs:374-392 | the total of a window is that of its samples, also when it saturates |
| EntityRates.RolledIsEmpty | zimascoped/src/api/db.rs:419-422 | a new interval keeps nothing of the one before |
| EntityRates.IntervalRates | zimascoped/src/api/db.rs:1239-1262 | after an interval the live entities are those of its traffic, each with eight times its bytes per second, rounded down, in either direction, and nothing of an earlier interval |
| EntityRates.RollForgetsAll | zimascoped/src/api/db.rs:1239-1262 | rolling evicts every entity |
| EntityRates.ChunksCover | zimascoped/src/api/db.rs:1306-1336 | the chunks are the changed rows in order, none empty, none above 64 |
| EntityRates.RateStore.StoreEntityRates | zimascoped/src/api/db.rs:1267-1345 | writes exactly the difference to the mirror, or rolls back and leaves both |
| EntityRates.RateStore.ClearHistory | zimascoped/src/api/db.rs:3200-3219 | runs its statements up to one that fails, the fifth of which empties the rate table, and empties windows and mirror in any case |
| EntityRates.PatchIsRewriteIff | zimascoped/src/api/db.rs:1267-1345 | writing the difference equals a full rewrite exactly when the mirror is right about the rows left alone |
| EntityRates.ClearKeepsMirrorIff | zimascoped/src/api/db.rs:3200-3219 | clearing keeps the mirror true exactly when it got as far as the rate table or that was empty |
| EntityRates.StaleRowsPersist | zimascoped/src/api/db.rs:3200-3219 | after a clear that stopped before the rate table, rows of idle entities outlive every later write |
| EntityRates.RunMirrors | zimascoped/src/api/db.rs:1267-1345 | over any run whose clears kept the mirror true, mirror equals table and every live window sums up |
| EntityRates.MirrorsThroughoutIff | zimascoped/src/api/db.rs:3200-3219 | the mirror is the table throughout a run exactly when every clear got as far as the rate table or found it empty |
| EntityRates.WriteMatchesLive | zimascoped/src/api/db.rs:1267-1345 | after every successful write table, mirror and live rates are the same map |
| LiveTicks.TickWriter.PrepareTick | zimascoped/src/api/db.rs:1180-1215 | decides for each touched Flow between nothing, a full record and a patch |
| LiveTicks.ProjectTick | zimascoped/src/api/db.rs:504-514 | projects the interval for one subscriber filter, as a loop over the Flows |
| LiveTicks.TickSelects | zimascoped/src/api/db.rs:504-514 | under any filter the full records are exactly the matching unpatched Flows and the patches exactly those of the matching patched Flows, both in the order of the Flows |
| LiveTicks.NeverBoth | zimascoped/src/api/dto.rs:988-993 | under any filter no id rides a tick in full and as a patch |
| LiveTicks.PreparedEffect | zimascoped/src/api/db.rs:1180-1215 | the effect of an interval on each Flow and on no other |
| LiveTicks.AppliedEffect | zimascoped/src/api/dto.rs:960-993 | what a client that follows the tick protocol makes of each Flow of a tick |
| LiveTicks.RunKeepsSynced | zimascoped/src/api/db.rs:1180-1215 | in every run the client holds a record with each signature the server remembers |
| LiveTicks.ReplicaAgrees | zimascoped/src/api/dto.rs:960-1017 | after every tick the client agrees on the counters and the signature of each Flow in it, and on closed Flows entirely |
| LiveTicks.ReplicaAgreesOnDetails | zimascoped/src/api/db.rs:4445-4470 | while no domain is ambiguous it agrees on every descriptive field |
| LiveTicks.SteadyAgrees | zimascoped/src/api/db.rs:504-514 | a client whose filter looks at nothing that can change while the signature stays agrees on every matching Flow of every tick, in all runs |
| LiveTicks.FilteredAgreesIff | zimascoped/src/api/db.rs:504-514 | those are exactly the filters whose clients do |
| LiveTicks.LateMatchIsLost | zimascoped/src/api/db.rs:504-514 | a Flow that comes to match while its signature stays reaches a filtered client as a patch of a record it never had |
| LiveTicks.PatchFollowsFull | zimascoped/src/api/db.rs:1177-1212 | each patch follows a full record of equal signature, with no closure in between |
| LiveTicks.PatchCompletesIff | zimascoped/src/api/dto.rs:988-1017 | when a patch leaves the client with the server's record |
| LiveTicks.SignatureTellsDetails | zimascoped/src/api/db.rs:4445-4470 | each signature of an open Flow is that of exactly one unambiguous description, and another one's exactly when a domain holds a separator behind a tag, an application or the text for none |
| LiveTicks.SharesSignatureIff | zimascoped/src/api/db.rs:4445-4470 | some other description has the same signature exactly when this one is ambiguous or has two parts |
| LiveTicks.LowerCaseAmbiguousIff | zimascoped/src/api/db.rs:4445-4470 | in normal, lower-case names only an application or the text for none can end before the separator |
| LiveTicks.SecondIntervalKeepsFirst | zimascoped/src/api/db.rs:1195-1212 | two intervals whose descriptions of a Flow share a signature leave the client with the first description |
| LiveTicks.RunsAgreeIff | zimascoped/src/api/db.rs:1180-1215 | clients have the descriptive fields right in every run over a vocabulary exactly when signatures tell its open descriptions apart |
| LiveTicks.PlainIsLargest | zimascoped/src/api/db.rs:4445-4470 | the unambiguous descriptions are such a vocabulary, and stop being one with any ambiguous description more |
| LiveTicks.SeparatorConfuses | zimascoped/src/api/db.rs:4445-4470 | a domain with a separator can look like an application and another domain |
| LiveStream.StreamStore.SetStreamQuery | frontend/src/store.ts:150-164 | retargets the stream when something consumes it |
| LiveStream.StreamStore.SubscribeTicks | frontend/src/store.ts:167-183 | adds a listener and ensures a stream |
| LiveStream.StreamStore.Unsubscribe | frontend/src/store.ts:174-182 | removes a listener and arms the stop timer after the last |
| LiveStream.StreamStore.FireTimer | frontend/src/store.ts:176-181 | stops the stream when nobody listens by then |
| LiveStream.StreamStore.DeliverTick | frontend/src/store.ts:220-226 | passes a tick of the current source to the listeners, and of no other |
| LiveStream.StreamStore.HandleVisibilityChange | frontend/src/store.ts:196-210 | stops while hidden, and returns with a reload |
| LiveStream.RunKeeps | frontend/src/store.ts:150-241 | in every reachable state at most one source is open, none while paused, and a visible page with a listener has one with the current filter |
| LiveStream.StateIsHistory | frontend/src/store.ts:150-241 | in every reachable state the filter is the one set last, the listeners are those who subscribed and have not left since, the stream is paused exactly while the page is hidden, and a reload was asked for at each return to a listener |
| LiveStream.ServedAsAsked | frontend/src/store.ts:150-241 | whoever listens to a visible page is served by the one open source, with the filter set last |
| LiveStream.SourcesAreNew | frontend/src/store.ts:216-219 | a source that is opened is a new one in every run |
| LiveStream.JoiningKeepsSource | frontend/src/store.ts:167-194 | who joins a served page finds its source and arms nothing |
| LiveStream.RejoiningKeepsSource | frontend/src/store.ts:167-183 | leaving arms one new timer exactly when nobody is left, and joining again disarms it and keeps the source |
| LiveStream.RetargetReplacesSource | frontend/src/store.ts:150-164 | another filter replaces the source exactly when one is open and somebody listens |
| LiveStream.DeliveredTicksAreCurrent | frontend/src/store.ts:216-234 | a tick that reaches a listener comes from the open source with the current filter |
| LiveStream.TimersCloseIdleStream | frontend/src/store.ts:174-182 | once the timers have fired, in any order, a stream is open only for a listener |
| LiveStream.ReturnReloads | frontend/src/store.ts:204-209 | coming back from a hidden page reopens the stream and asks for a reload |

## Left out

- eBPF loading, ABI checks, map capacity and LRU eviction policy: kernel and library behaviour. Evicted Flows are counted by a ghost total, and an enforcement step is atomic.
- Per-CPU splitting of counters: counters are taken summed.
- Addresses are IPv4 words; the 16-byte storage that zero-extends them is left out.
- Payload sampling and its ring buffers (`sample_service`, `sample_domains`), and the `/proc`, cgroup and process resolution.
- The LPM trie is a lookup of the longest matching prefix in a map whose keys are prefix length and leading bits, as in the kernel; owner tables are plain maps.
- A link that is attached but cannot be taken out of its program counts as not attached; a link whose detachment is refused counts as given up.
- The clock anchoring of the evidence decoder: observation times are inputs.
- Compilation of Traffic Rules, selectors and proxies: compiled programs are inputs, with distinct rule ids and a state for each direction a rule matches in.
- The tokens and counters of a rule state in `PolicyDiff`; `TokenBucket` has them.
- SQL text, the query engine, filters, paging, exports, enrichment and migrations. A statement is an operation on maps, a transaction one step. The choice of Associated Domains is proved for every sorted arrangement; the library sort is not modelled.
- The interface label of a bucket row, and SQLite's change to floating point when an integer counter overflows.
- Timelines filtered by interface name.
- Endpoint, domain and application aggregates of a tick, and the tick cache.
- Rates are computed over reals; the rounding of `f64` is not modelled.
- UTF-8 is modelled as bytes; control characters are recognised by their encoding.
- Rollups.BucketStore.Ingest: the batch is the list of stored Flows read back for the interval, so Flows that the policy pass deleted in it are not booked.
- EvidenceCache.PurgesAreTransparent: assumes a clock that does not go back, as the monotonic clock of the collector.
- EntityRates.IntervalRates: assumes that the bytes of an interval fit 64 bits and its rates 63 bits; `EntityRates.AddedSumsUp` covers totals that saturate.
- Timeline.TimelineSums: is about timelines without an interface filter.
- PacketPath.Hook.UpdateFlow: marks the entry as sampled but does not copy the payload into the service ring buffer or count emitted and lost samples.
- PacketPath.Hook.Process: leaves out the domain sample that is taken of a recorded packet; it changes no map of the model.
- PacketPath.RunConserves: the lookup of a rule state that is there does not fail.
- HookSet.HookManager.Detach: leaves out the links of the socket-owner and UDP programs, and which error is reported first.
- FlowTables.FlowStore.UpsertFlow: leaves out the service and enrichment columns of the merge.
- FlowTables.FlowStore.EnforcePolicy: leaves out the five-second throttle and the deletes of applications and observations; the bucket deletes are in `Rollups`.
