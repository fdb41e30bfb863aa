# NetPlug: traffic shaping, accounting, addresses and configuration files

NetPlug administers a WireGuard server. Around its HTTP handlers and SQL tables sit four small engines,
and this project models them and proves what they are for:

* **Shaping** (`Limits`, `Rates`, `Plan`, `Script`, `Tc`, `Shaping`, `Apply`, `ShellQuote`, `Preview`, `Caps`).
  Database rows are folded into caps per tunnel address, compiled into argument vectors and run under one
  lock. `Tc` is an interpreter for those vectors, and `Script` reads the `sh -c` scripts among them by the
  rules of section 2 of POSIX.1-2017 Shell Command Language. The compiled program is proved to mean the
  map from every earlier device state, and any interleaving of handlers to converge, exactly when the
  interface name is one shell word. Printed plans are read back by the same rules.
* **Sync** (`Dump`, `Sync`, `Accounting`, `DayQuota`, `Presence`, `Chart`, `SwitchOff`). A tick reads the
  kernel's counters and rewrites every user row. A ghost kernel that counts the true bytes runs beside it;
  the theorems are about whole runs of growth, counter resets, peer removal, admin steps and ticks.
* **Addresses** (`Ipv4`, `Hosts`, `Allocator`). Host enumeration by byte arithmetic, the lowest free
  address, and runs of creates, edits, deletes and reconfigurations (CIDR, section 3.1 of RFC 4632).
* **Files** (`WgConfig`, `WgQuick`, `RoundTrip`, `HandWritten`, `Import`, `ClientConf`). The printers of
  wg0.conf and of the client's file, the line-by-line importer, the round trips between them, and what the
  importer makes of files written by hand.

`Wrappers`, `Text`, `Numbers` and `Sorting` hold what several modules use: options, Go's string
functions on ASCII text, numerals, and the ascending enumeration of a set of strings.

The loops and updated fields of the source are methods and classes here (`Plan.PeerShapeAppend`,
`Tc.Device`, `WgQuick.Parser`, `WgConfig.Buffer`, `Sync.Store`, ...). Each is proved equal to a function,
and the theorems are about those functions. What a function computes is stated again without it: in numbers,
over the columns of the tables, or over every text that is read.

`dafny verify dfyconfig.toml` checks the whole project.

## Where a promise fails

* The delete scripts paste the interface name into shell text. For a name that is not one shell word (`a&b`,
  `#0`, `~x`, `eth*`, ...) the old qdiscs stay, the run fails, or what runs cannot be told from the text
  (`Shaping.PlanMisses`); so the program means its map, and handlers converge, if and only if the name is
  one shell word (`Shaping.PlanMeansTheMap`, `Apply.Convergence`). With a name that starts with # the
  first command already fails (`Shaping.HashNameAborts`). With a blank name the scripts name no device, but
  their words for the qdisc are read as a device called `ingress` or `root`
  (`Shaping.NoInterfaceNoChange`).
* A plan stops at the first refused command. With more than 65526 upload-limited addresses the filter
  priorities run past 16 bits and only the first 65526 in string order keep their policers; download-limited
  addresses after the first 65181 get no class. Both numbers are exact (`Shaping.EveryCapIsEnforced`).
* Deleting a group reconciles nothing. The device still matches the tables exactly when every address of the
  group is treated alike with and without it (`Apply.DeletingAGroup`, `Limits.DeletingAGroupKeepsTheMap`);
  after the delete of the last download cap of an address it never does (`Apply.LastCapStays`).
* A counter reset that both counters have overtaken is not seen. Usage then falls short and never exceeds
  the truth (`Accounting.UsageNeverInvented`, `Accounting.TickedUsageIsExact` say exactly when it is equal).
* A day of the quota lasts until the first tick a full day after the charge before it. With ticks G seconds apart
  that is the smallest multiple of G from 86400 on, not 86400 (`DayQuota.OneDayEveryCycle`).
* The chart shows more than the recorded bytes for some traffic exactly when some gap between snapshots lies
  strictly above one interval and up to two (`Chart.CoveredExactly`), and never more than twice.
* A user who is being switched off comes back through a tick that has the peer in its dump and finds quota
  left: in flight before the handler, run inside it, or pending at its end (`SwitchOff.SwitchingOff` says
  exactly when the handler takes hold; `SwitchOff.TickInsideHandler`, `SwitchOff.InFlightTickDecides`).
* A stored cap that no entry of four digits produces changes once when the form is saved unchanged
  (`Caps.SaveCanAlter`), and never again (`Caps.SecondSaveChangesNothing`).
* The printer leaves backslash, tab, parentheses, `*`, `?`, `[` and a leading # or ~ unquoted
  (`ShellQuote.QuotedJoinRoundTrip` gives the exact set of arguments that survive).
* Client ranges wider than 65536 addresses yield no address, although they parse
  (`Allocator.AllocatesTheLowest`).

## Model

| member | source | states |
|---|---|---|
| Limits.MergeRow | internal/pcq/load.go:72-88 | one pass of the loader loop is the entry merge that the map's meaning is defined by; rows without address or cap change nothing |
| Limits.LoadPeerLimits | internal/pcq/load.go:20-94 | for the query's rows in any order, the map lists exactly the addresses that a membership in force limits, with the least positive download, upload and burst columns that the classifiers admit |
| Limits.LoadPeerLimitsForGroup | internal/pcq/load.go:98-151 | the same over the memberships of one group; the empty map for a blank group id |
| Limits.DenotesReflects | internal/pcq/load.go:13-93 | what the rows mean, as merged entries, is what the users, presets and memberships mean column by column; disabled users, disabled presets and users outside WireGuard count for nothing |
| Limits.ReflectsUnique | internal/pcq/load.go:46-94 | the tables leave exactly one such map |
| Limits.DenotesUnique | internal/pcq/load.go:64-93 | the merged entries leave exactly one map |
| Limits.FoldDenotes | internal/pcq/load.go:65-89 | folding rows one by one reaches that map |
| Limits.OrderDoesNotMatter | internal/pcq/load.go:64-93 | rows in another order, or repeated, give the same map |
| Limits.MapIsMergeOfPreviews | internal/pcq/load.go:46-151 | the map over all groups is the pointwise minimum-merge of every group's own preview map |
| Limits.JoiningAGroupTightens | internal/pcq/load.go:35-43 | a further membership removes no address, raises no positive cap and raises no compiled rate |
| Limits.DeletingAGroupKeepsTheMap | internal/app/groups_handlers.go:95-112 | deleting a group keeps the map if and only if each of its entries has its address listed, and each of its positive caps matched by one no larger, in the other groups |
| Rates.RateIsNearest | internal/pcq/plan.go:12-19 | the compiled rate is the integer nearest to kbps * 10^6 / 1024, and 8000 below that |
| Rates.RateIsMonotone | internal/pcq/plan.go:12-41 | a lower cap never compiles to a higher rate or burst |
| Rates.BurstIsNearest | internal/pcq/plan.go:21-36 | fifty milliseconds at kbps kb/s are the integer nearest to 3125 * kbps / 512 bytes, and 1600 below that |
| Rates.BurstFollowsSmallerSetting | internal/pcq/plan.go:21-41 | the burst is that number for the smaller positive setting, and 12500 without any |
| Plan.AppendDownloads | internal/pcq/plan.go:81-112 | the counter loop emits a class and a filter for the first 65181 download-limited keys and nothing else |
| Plan.AppendUploads | internal/pcq/plan.go:117-136 | the counter loop emits a policer for every upload-limited key |
| Plan.Needs | internal/pcq/plan.go:59-68 | the two flags say whether any key is limited in that direction |
| Plan.PeerShapeAppend | internal/pcq/plan.go:44-139 | the loops and counters build the program that the theorems speak about |
| Plan.Plan | internal/pcq/plan.go:142-159 | teardown followed by that program; teardown alone without interface or peers |
| Script.DeleteScriptText | internal/pcq/plan.go:148-149 | the script that is read is the planner's text with the name pasted in |
| Script.DeleteScriptReads | internal/pcq/plan.go:148-149 | a name that is one shell word reaches `tc` as itself, errors discarded and failure ignored |
| Script.OnlyShellWordsReach | internal/pcq/plan.go:148-149 | no other name, whatever it quotes, escapes or cuts off, reaches `tc` as itself |
| Tc.Device.RunCommands | internal/pcq/apply_linux.go:14-56 | commands run in order up to the first failure, with the device state and result of the interpreter wherever it can tell them |
| Shaping.PlanReachesState | internal/pcq/plan.go:142-159 | from every earlier device state, also one left by an aborted run, the program ends in the one state that the map determines, if and only if the name is one shell word |
| Shaping.DownloadsAsMeant | internal/pcq/plan.go:71-113 | in that state packets to each address get that address's rate and burst, the open default class, or no shaping when nobody is limited |
| Shaping.UploadsAsMeant | internal/pcq/plan.go:115-137 | packets from each address are policed at that address's rate and burst, all others not at all |
| Shaping.CapsInNumbers | internal/pcq/plan.go:12-136 | each capped address has the nearest rate to its cap and the nearest burst to the smaller of cap and burst setting; all others share 100 Gbit/s |
| Shaping.ClassTree | internal/pcq/plan.go:71-100 | all classes borrow from one of 100 Gbit/s, those of the peers before the default one |
| Shaping.PlanMeansTheMap | internal/pcq/plan.go:44-159 | compiler correctness for every map, address and earlier state, commands all succeeding exactly when at most 65526 addresses are upload-limited, if and only if the name is one shell word |
| Shaping.PlanMisses | internal/pcq/plan.go:147-158 | for every other name the run cannot be told, changes nothing and fails, or shapes on top of the old state |
| Shaping.HashNameAborts | internal/pcq/plan.go:148-149 | a name that starts with # drops the rest of the first script, and the run fails without a change |
| Shaping.SameState | internal/pcq/plan.go:44-139 | two maps give the same device state if and only if they give every address the same class and policer |
| Shaping.EveryCapIsEnforced | internal/pcq/plan.go:82-136 | every download cap in the map is enforced if and only if at most 65181 addresses have one, every upload cap if and only if at most 65526 have one |
| Shaping.NoInterfaceNoChange | internal/pcq/plan.go:146-152 | with a blank interface name the program succeeds and changes no device, except that devices called ingress or root may be hit |
| Apply.Apply | internal/pcq/apply.go:12-80 | one call returns the printed plan and leaves the device in the state of the current tables, or unshaped when disabled, reporting failure exactly for too many policers; a failed load changes and returns nothing |
| Apply.WireFollowsTables | internal/pcq/load.go:46-94 | in the state of the tables every address moves at the nearest rate to the least setting of its memberships in force, and unlimited without one |
| Apply.StepKeepsInv | internal/pcq/apply.go:13-79 | every step of every handler keeps: one handler inside the lock, and the rest of its program leads to the state it loaded |
| Apply.RestIsLatestLoad | internal/pcq/apply.go:12-80 | after any interleaving of writes and calls, a device at rest is in the state of the map loaded last |
| Apply.HandlersConverge | internal/app/pcq_handlers.go:415-429 | when every write goes on to reconcile, a device at rest is in the state of the final tables |
| Apply.Convergence | internal/app/pcq_handlers.go:415-429 | that holds for all tables, earlier states and interleavings if and only if the interface name is one shell word |
| Apply.OldShapingStays | internal/pcq/plan.go:147-158 | for any other name a single reconciling call can leave foreign shaping in place, whatever the tables |
| Apply.SomeStepIsEnabled | internal/pcq/apply.go:13-14 | no deadlock: while a handler is not done, a handler can step |
| Apply.DeletingAGroup | internal/app/groups_handlers.go:95-112 | after a group delete, which does not reconcile, a device at rest matches the tables if and only if every address is treated alike by the maps before and after |
| Apply.LastCapStays | internal/app/groups_handlers.go:95-112 | it never matches when the group held the last download cap of an address with a class |
| ShellQuote.QuotedJoin | internal/pcq/plan.go:222-237 | the builder loop writes the printed arguments separated by single spaces |
| ShellQuote.FaithfulRoundTrip | internal/pcq/plan.go:228-234 | arguments that are quoted or hold no unlisted special character read back as they were, embedded quotes and empty words included |
| ShellQuote.ReadShrinks | internal/pcq/plan.go:228-234 | from within an unquoted argument the reader never gains text, and loses some at every unlisted special character |
| ShellQuote.QuotedJoinRoundTrip | internal/pcq/plan.go:222-237 | a printed line splits into exactly its arguments if and only if each is quoted, or has no backslash, tab, parenthesis or globbing character and no leading # or ~ |
| Preview.FormatPlan | internal/pcq/plan.go:213-220 | one printed line for every command, in order |
| Preview.LoadedKeysAreAddresses | internal/pcq/load.go:72-88 | every key of a loaded map is a printed IPv4 address |
| Preview.PreviewIsTheProgram | internal/pcq/apply.go:53-54 | for every loaded map, each printed line of the plan splits into the arguments that are executed, if and only if nothing is shaped or the interface name survives printing |
| Caps.SavedIsNearest | internal/app/pcq_handlers.go:67-81 | an entry stores a cap exactly from half a kb/s on, and then the nearest integer to 1024 times the entry, halves up |
| Caps.RoundIsNearest | internal/app/pcq_handlers.go:117-123 | the four displayed digits are nearest to the stored cap |
| Caps.TiesGoToEven | internal/app/pcq_handlers.go:117-123 | between two equally near values the even digits are shown |
| Caps.DisplayIsNearest | internal/app/pcq_handlers.go:117-123 | no decimal of at most four digits, of any scale, is nearer to the stored cap than the display |
| Caps.TypedCapIsStable | internal/app/pcq_handlers.go:67-81 | showing and saving again keeps the stored value of every cap typed with at most four significant digits |
| Caps.StableIffTyped | internal/app/pcq_handlers.go:67-123 | a stored value survives an unchanged save if and only if some cap of at most four digits would store it |
| Caps.SecondSaveChangesNothing | internal/app/pcq_handlers.go:67-123 | the second unchanged save keeps what the first stored |
| Caps.SaveStaysClose | internal/app/pcq_handlers.go:67-123 | one save moves a value by at most one part in 2000 and half a unit, so none under 1000 kb/s moves |
| Caps.SaveCanAlter | internal/app/pcq_handlers.go:117-123 | 10241 kb/s becomes 10240 |
| Dump.ParseDump | internal/wireguard/syncer.go:375-404 | the loop over the lines yields the peers, or nothing for the two error returns |
| Dump.DumpRefusedExactly | internal/wireguard/syncer.go:375-391 | a dump is refused if and only if it is blank, or a line after the first is not blank and has fewer than eight fields |
| Dump.DumpReadsBack | internal/wireguard/syncer.go:375-411 | reading what the kernel tool prints gives every peer in order with key, handshake and both counters, and its endpoint unless that is (none) |
| Dump.ReadInteger | internal/wireguard/syncer.go:413-416 | every integer is read back, from within white space, cut to 64 bits |
| Dump.NoNumberIsZero | internal/wireguard/syncer.go:413-416 | any other text counts as 0 |
| Sync.LastPeerWins | internal/wireguard/syncer.go:109-112 | a key stands for the last peer that has it |
| Sync.UpdateDays | internal/wireguard/syncer.go:211-236 | the branches of the day quota compute the remaining days and the check time |
| Sync.UpdateQuotas | internal/wireguard/syncer.go:238-274 | the branches of the traffic quota and of both flags compute the remaining traffic and the new flag |
| Sync.UpdateRow | internal/wireguard/syncer.go:163-325 | the whole new row, for rows without key, absent peers and present peers |
| Sync.Store.UpdateRows | internal/wireguard/syncer.go:142-328 | every row is updated once and the totals are the sums over connected enabled rows |
| Sync.Store.SyncOnce | internal/wireguard/syncer.go:85-341 | the new user table and snapshot table of one tick; the newest snapshot sums the rates of the rows whose peer was seen under 120 s ago with no limited quota used up |
| Sync.RowAdds | internal/wireguard/syncer.go:277-280 | a row that is keyed, connected and enabled adds exactly its two rates to the totals, any other nothing |
| Sync.RatesAreServed | internal/wireguard/syncer.go:177-280 | the totals are over exactly the rows whose peer is in the dump, was seen under 120 s ago, and has no limited quota used up |
| Sync.TableIsTheLastDay | internal/wireguard/syncer.go:330-338 | over every run with a clock that does not go back, the snapshot table is one clean-up of everything ever added |
| Sync.RecentHolds | internal/wireguard/syncer.go:335-338 | that keeps exactly the snapshots of the last 86400 seconds |
| Sync.EnabledIsMemoryless | internal/wireguard/syncer.go:255-274 | a present row is enabled exactly when no limited quota is used up, whatever its flag was |
| DayQuota.AbsentRunKeeps | internal/wireguard/syncer.go:167-175 | over every run of ticks that do not see the peer, flag, counters, totals and quotas stay and the row is disconnected |
| Presence.ConnectedExactly | internal/wireguard/syncer.go:177-181 | after any run a row is connected if and only if the last tick saw its peer under 120 s ago |
| Presence.ConnectedSince | internal/wireguard/syncer.go:181-187 | the connection time is the tick that began the present unbroken streak of sightings |
| Presence.LastDumpTells | internal/wireguard/syncer.go:167-192 | endpoint and handshake are the last dump's; a connected row that it misses forgets both |
| Accounting.StepKeepsInv | internal/wireguard/syncer.go:194-208 | growth, resets, removal, return and ticks keep: both kinds of stored counters agree, and true bytes are recorded plus lost plus unsampled bytes |
| Accounting.TickedUsageIsExact | internal/wireguard/syncer.go:194-200 | from a fresh start, a run that ends in a tick that sees the peer has recorded exactly the true bytes if and only if no step lost bytes |
| Accounting.ChartNeverInvents | internal/app/handlers.go:1824-1842 | over every run the chart's bytes are at most twice the true bytes in each direction |
| Accounting.StepOnCell | internal/wireguard/syncer.go:194-200 | recorded usage never decreases in a step, and a step loses bytes exactly on a reset with unsampled bytes or an unseen reset |
| Accounting.UsageNeverInvented | internal/wireguard/syncer.go:194-200 | over every run recorded usage never decreases or exceeds the true bytes, with equality exactly when no step lost bytes |
| Accounting.QuotaConserved | internal/wireguard/syncer.go:243-253 | over every run the remaining traffic is the larger of 0 and the starting quota less the growth of recorded usage |
| Accounting.RateIsRecordedGrowth | internal/wireguard/syncer.go:194-209 | both reset detectors agree: rate 0 on a detected reset, otherwise the floor of recorded growth over the interval |
| Accounting.TickFeedsTheChart | internal/wireguard/syncer.go:276-280 | every reachable tick meets the assumptions of the chart's bounds |
| DayQuota.NeverChargedEarly | internal/wireguard/syncer.go:211-236 | over every run with a clock that does not go back, days charged are at most the whole days since the first check |
| DayQuota.NeverFarBehind | internal/wireguard/syncer.go:211-236 | with ticks at most G seconds apart and days remaining, elapsed time is below the sum of a day and G for each day charged, plus one day |
| DayQuota.OneDayEveryCycle | internal/wireguard/syncer.go:211-236 | with a tick every G seconds a day is charged exactly at every n-th tick, where n gaps are the fewest that make a day, until none is left |
| DayQuota.DaysNeverGrow | internal/wireguard/syncer.go:211-236 | over every run, also with a clock that goes back, the remaining days never grow or fall below 0 |
| DayQuota.NoQuotaNoClock | internal/wireguard/syncer.go:211-236 | over every run a row without a day quota or with none left keeps it, and no tick starts or moves its clock |
| DayQuota.LateStartNeverChargedEarly | internal/wireguard/syncer.go:211-236 | a row without a readable check time is charged at most the whole days since the first tick that saw its peer |
| Chart.Integrate | internal/app/handlers.go:1824-1842 | the loop fills both maps with each day's charged bytes |
| Chart.ChargedToItsDay | internal/app/handlers.go:1826-1841 | a snapshot charges its own day rate times gap, nothing for a gap of at most 0, and rate times interval for one above two intervals |
| Chart.SteadyBars | internal/app/handlers.go:1824-1857 | with ticks on time the bars of each direction add up to the interval times the rates of all snapshots but the last |
| Chart.SumIsCovered | internal/wireguard/syncer.go:202-209 | the snapshot's rate times the interval is at most what the tick recorded, in each direction |
| Chart.ChartIsCovered | internal/app/handlers.go:1824-1842 | for any spacing the integrated bytes are at most twice the recorded growth, and at most that growth when no gap lies strictly above one interval and up to two |
| Chart.StretchedGapOvercharges | internal/app/handlers.go:1835-1841 | at every spacing with a gap strictly above one interval and up to two, some traffic is charged the gap's length for an interval's bytes |
| Chart.CoveredExactly | internal/app/handlers.go:1824-1842 | for a spacing, the integrated bytes of all traffic stay within its recorded growth if and only if no gap is stretched in that way |
| Chart.BarsAddUp | internal/app/handlers.go:1844-1857 | the daily bars of a direction add up to its integrated total |
| Chart.GrowthTelescopes | internal/wireguard/syncer.go:194-200 | for ticks in a row the summed growth is the growth of the stored usage |
| SwitchOff.StepKeepsOff | internal/wireguard/syncer.go:167-175 | no tick part, traffic, config apply or admin step on another user brings back the flag or the kernel peer |
| SwitchOff.ConfigServes | internal/wireguard/config.go:109-149 | the keys that a config apply leaves in the kernel are those that reading the written wg0.conf gives |
| SwitchOff.OffStaysOff | internal/app/handlers.go:1555-1576 | over every run of such steps a user that is off stays off and out of the kernel |
| SwitchOff.RunOnFlag | internal/wireguard/syncer.go:97-118 | after any run that leaves the user alone the flag is on exactly when the last tick that saw the peer found quota left, or none saw it and it was on |
| SwitchOff.SwitchingOff | internal/app/handlers.go:1561-1572 | with any run between its table write and its config apply, a toggle or edit takes hold if and only if the last tick in between that saw the peer, if any, found its quota used up, and none in flight at the end has the peer in its dump |
| SwitchOff.UndisturbedHandler | internal/app/handlers.go:1561-1572 | it takes hold when no tick is in flight or runs in between |
| SwitchOff.TickInsideHandler | internal/app/handlers.go:1561-1572 | a tick wholly inside the handler sets the flag of every served user with quota left again, and the config serves the peer |
| SwitchOff.InFlightTickDecides | internal/wireguard/syncer.go:97-118 | the commit of a tick in flight sets a cleared flag exactly when its dump has the peer and no limited quota is used up |
| Ipv4.ParseIPOfString | internal/pcq/tunnel.go:26-37 | a printed address parses to itself |
| Ipv4.ParseIPExact | internal/pcq/tunnel.go:26-37 | the texts that read as an address are exactly the printed ones |
| Ipv4.ParseCIDRExact | internal/pcq/tunnel.go:26-31 | the texts that read as a block are exactly address, slash and a numeral of at most 32, with that address and length |
| Ipv4.TunnelIsRead | internal/pcq/tunnel.go:9-38 | a column's shaping key is its first entry's address, bare or with a prefix length of at most 32; with a longer one there is none |
| Ipv4.SegmentIsRead | internal/wireguard/peers.go:105-122 | a single entry is in use as an address if and only if it is that address, alone or with a slash behind it |
| Ipv4.FirstSegmentDecides | internal/wireguard/peers.go:105-122 | of a list of entries the first that names an address decides |
| Ipv4.ColumnReadsBack | internal/pcq/tunnel.go:9-38 | the column of an allocated address reads back as that address for the client file, the shaping key and the allocator |
| Hosts.MaskValue | internal/wireguard/peers.go:130-130 | masking byte by byte clears the low bits of the address as a number |
| Hosts.ContainsIsInterval | internal/wireguard/peers.go:144-146 | containment by masks is membership in the block's interval of numbers |
| Hosts.AddToIPv4 | internal/wireguard/peers.go:151-158 | addition in place, byte by byte, is addition modulo 2^32 |
| Hosts.AllHostsIPv4 | internal/wireguard/peers.go:124-149 | the loop returns the full enumeration: no addition wraps and the containment filter drops nothing |
| Hosts.HostsAreExact | internal/wireguard/peers.go:138-148 | the enumeration holds exactly the block's addresses other than network and broadcast, in strictly increasing order |
| Hosts.SortKeeps | internal/wireguard/peers.go:68-68 | any sort of that enumeration is the enumeration itself |
| Allocator.ServerReadsBack | internal/wireguard/peers.go:81-103 | the server's address is read from its bare form, with a prefix length or any other suffix, and with further entries behind it |
| Allocator.UsedAddresses | internal/wireguard/peers.go:50-65 | the set of texts marks exactly the first IPv4 address of each row |
| Allocator.NextClientAllowedIP | internal/wireguard/peers.go:25-79 | the method computes the allocation that the next row describes |
| Allocator.AllocatesTheLowest | internal/wireguard/peers.go:25-79 | an allocation is the lowest host that is not server or used; it fails exactly for a missing or malformed configuration, a range that does not parse, or when no such host exists |
| Allocator.AllocationOfText | internal/wireguard/peers.go:25-149 | for a range entered as address and length n, the allocation is the lowest number strictly inside the block of 2^(32-n) around the address that is neither server nor used; none below 16 and at 32, refused above |
| Allocator.AddressesStayDistinct | internal/app/handlers.go:1072-1083 | no run of creates, edits, deletes and reconfigurations gives two users the same address |
| Allocator.AddressesStayInRange | internal/app/handlers.go:1072-1083 | while the configuration stays, every address is a host of the range and none is the server's |
| Allocator.OneTunnelAddress | internal/app/handlers.go:1261-1277 | whatever edits follow, a user keeps its address for all three readers until it is deleted |
| Allocator.LastEditStands | internal/app/handlers.go:1261-1277 | after any run without its deletion a user's column is its address followed by the prefixes entered last |
| WgQuick.Parser.BeginSection | internal/wireguard/wgquick_parse.go:82-102 | a section header completes the current peer and takes over the pending name |
| WgQuick.Parser.Set | internal/wireguard/wgquick_parse.go:109-121 | a setting reaches the interface, the current peer or a new peer |
| WgQuick.Parser.ScanLine | internal/wireguard/wgquick_parse.go:65-122 | one line moves all five variables as the section machine says |
| WgQuick.ParseWGQuickConfig | internal/wireguard/wgquick_parse.go:41-132 | the scanner loop parses the text, refusing one without a private key |
| WgConfig.Buffer.WriteHook | internal/wireguard/config.go:159-173 | one line for every non-empty line of the hook |
| WgConfig.HookOfOneLine | internal/wireguard/config.go:159-173 | a hook of one line is that line trimmed, or nothing |
| WgConfig.HookOfLines | internal/wireguard/config.go:165-172 | a hook may be cut at any line break |
| WgConfig.Buffer.WritePeers | internal/wireguard/config.go:134-149 | one section for every written user, in order |
| WgConfig.WriteWireGuardConfig | internal/wireguard/config.go:39-157 | the file's whole text, or none for each error return |
| WgConfig.WrittenExactly | internal/wireguard/config.go:39-69 | there is a file if and only if WireGuard is configured and enabled and there is a server |
| RoundTrip.WalkHook | internal/wireguard/wgquick_parse.go:215-224 | reading a hook's lines one by one joins them again |
| RoundTrip.WalkPeer | internal/wireguard/wgquick_parse.go:85-91 | a written section completes the peer before it and yields the user's name, keys and addresses |
| RoundTrip.ParseUndoesWrite | internal/wireguard/config.go:60-149 | parsing a written file gives back key, DNS, MTU, normalised hooks and the served users' peers, the server's port or else the configured one, and the address with /24 when it was bare |
| RoundTrip.PeersAreTheWrittenUsers | internal/wireguard/config.go:109-149 | those peers are exactly the enabled WireGuard users with key and addresses, with their columns, by ascending username |
| HandWritten.SettingLine | internal/wireguard/wgquick_parse.go:152-163 | `key = value` is read in any spacing and letter case |
| HandWritten.SectionLine | internal/wireguard/wgquick_parse.go:81-84 | so is `[section]` |
| HandWritten.UserLine | internal/wireguard/wgquick_parse.go:134-150 | so is a user comment, after # or ; |
| HandWritten.CommentLine | internal/wireguard/wgquick_parse.go:72-79 | a line that starts with # or ; is a comment, and names nobody without a colon |
| HandWritten.JunkLine | internal/wireguard/wgquick_parse.go:104-107 | a line without equals sign that is no section and no comment is junk |
| HandWritten.NoiseIsIgnored | internal/wireguard/wgquick_parse.go:65-109 | blank lines, such comments and lines without equals sign can stand anywhere |
| HandWritten.ForeignSectionIsDropped | internal/wireguard/wgquick_parse.go:98-121 | a section of another name is dropped with all its settings |
| HandWritten.PeerOverwrites | internal/wireguard/wgquick_parse.go:197-213 | in a peer section the last of equal settings counts |
| HandWritten.PeerCommutes | internal/wireguard/wgquick_parse.go:197-213 | the order of different settings does not matter |
| HandWritten.InterfaceOverwrites | internal/wireguard/wgquick_parse.go:165-195 | in the interface section, too, the last of equal settings counts, hooks and numbers apart |
| HandWritten.InterfaceNumbers | internal/wireguard/wgquick_parse.go:169-181 | a port from 1 to 65535 and a positive MTU are taken, and anything else leaves what was there |
| Import.ImportPeersAsUsers | internal/app/handlers.go:685-726 | the loop stores one row per usable peer under its name, later ones replacing earlier ones |
| Import.LastUsableWins | internal/app/handlers.go:685-726 | each name gets the columns of its last peer with key and addresses, blank ones as NULL, and every other row stays |
| Import.UnnamedPeerIsStoredByAddress | internal/wireguard/wgquick_parse.go:226-243 | a peer without a user comment is stored under the bare address that its first segment holds |
| Import.UnnamedPeerWithoutAddress | internal/app/handlers.go:693-701 | and under its key when that segment holds none |
| Import.ImportOfWrittenFile | internal/app/handlers.go:685-726 | importing a written file into an empty table restores every written user and nobody else |
| Import.WriteAfterImport | internal/wireguard/config.go:39-157 | writing the imported users gives the same file again |
| ClientConf.RenderClientConfig | internal/wireguard/clientconf.go:16-99 | the file's whole text and name, or the reason there is none |
| ClientConf.RenderedExactly | internal/wireguard/clientconf.go:36-56 | there is a file if and only if the user has a private key and a first address and there is a server; it is named after the user |
| ClientConf.RenderedReadsBack | internal/wireguard/clientconf.go:66-97 | parsing a rendered file gives back key, address, DNS, MTU and the server as the only peer, at host and port, for the configured addresses or else all |
| ClientConf.AddressReachesTheClient | internal/wireguard/clientconf.go:48-52 | after any run without the user's deletion the rendered file names the address the user was created with |

## Left out

- Floating point: rates, caps, bursts and displays are exact rationals rounded where the source rounds; rounding errors of float64 are not modelled.
- 64-bit overflow of counters and byte totals.
- Text is ASCII; IPv6 text, Unicode white space and Unicode case folding are not modelled, and an address that is not dotted IPv4 counts as none.
- The kernel's `tc` beyond the commands that the planner emits, among them rate limits of parent classes and handles it assigns itself.
- Running `wg`, `wg-quick`, `tc` and `sh`, file writes and renames, timeouts and logs: commands are interpreted, writing a config and applying it is one step of `SwitchOff` and taken to succeed, and the config steps of two handlers do not overlap.
- The syncer's interface lookup, and `Start`, `Stop` and the ticker.
- SQL text, scan errors and failed transactions; tables are maps, sets or sequences of rows. What an upsert keeps of columns outside the model is not told.
- The handshake is compared with the tick's own clock, in whole seconds.
- The classifier column is one of its three meanings, not its text, and an endpoint that is NULL is the empty text.
- Times of snapshots are given, and the local day of a time is a parameter of the chart.
- Edits of the remaining days or traffic: they leave the check time as it is, so the day quota theorems are about runs without them.
- Addresses typed by hand, imported addresses and two creates at the same time: the source has no uniqueness check there.
- Fairness: convergence is about runs that reach rest; no scheduler is modelled beyond the absence of deadlock.
- Shell expansions, operators, line continuations, globbing and tilde: the reader treats text with one of them as unreadable, except `2>/dev/null` and `|| true` in the form the planner writes them. Reserved words and assignments count as plain words.
- What a script that cannot be read, or a program other than `tc`, does: after one, state and result are not told.
- The digits and exponent form of the displayed cap: the display is its value.
- Line-length errors of the scanner.
- Key generation and derivation, identifiers, sessions, templates, breadcrumbs and every handler not named above.
- Wrappers, Text, Numbers, Sorting: helper modules without rows of their own.
