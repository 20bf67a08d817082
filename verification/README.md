# Verified model of the FIT rewriter and the Airoha data-path drivers

This project models, in Dafny, the parts of the repository where correctness depends on more than one function:
a byte-level transformation, two session tables with concurrent contexts, hardware-backed tables, a descriptor
ring, fixed-point rate registers and a mailbox protocol. Each module keeps the form of its source: code that
changes fields and registers in place is a class whose methods are proved against functions on values, and the
theorems are about those functions, over every input or every run.

| files | source | what is modelled |
|---|---|---|
| `Fdt`, `FdtText`, `FitTree`, `FitRewrite`, `FitDedup`, `FitSlack`, `FitDuplicate` | `cascade/image/srg-fit-dedup.py` | reading a flattened device tree (Devicetree Specification v0.4, sections 5.2, 5.4 and 5.5), replacing one property by two accessors, patching the position, the self-checks |
| `WifiLoTable`, `WifiLoOrder`, `WifiLoRuns`, `WifiLoSlots` | `arht_wifi_lo.c` | slots, two hash indexes, deferred device release, reference counts, the static key; each lock-held body is one step; the LOCAL_IN hook, RX readers, callbacks and the worker take one step for each access outside the lock |
| `DynamicIfc`, `DynamicIfcRuns`, `DynamicIfcFlows`, `DynamicIfcRules` | `arht_dynamic_ifc.c` | sessions, LRO ring reservations, hardware rules, the saved register, reference counts |
| `ShrinkTable`, `ShrinkLines` | `arht_ppe.c` | the 16-slot expiring cache with pinned slots over update memory; a MAC change beside it, every write of the shared data and control registers a step |
| `L2bEtherType`, `MacSwap`, `MacSwapRuns` | `arht_ppe.c`, `arht_loopback.c` | the packed ether-type table and the four-stage switch with rollback |
| `TxRing`, `TxRingRuns` | `arht_dp_api.c` | the free list, the descriptor chain, unwinding after a DMA failure; one model for the three copies of the code |
| `PhyIpc` | `arht_hsgmii.c` | the parity mailbox to the PHY |
| `BucketShift`, `TokenRate`, `TxQos` | `arht_qdma.c`, `arht_hsgmii.c` | the bucket searches, the token rate, upstream scheduling |
| `Digits`, `Tally`, `Wrappers` | | packed words as digits, counting references, Option and Result |

What the environment decides is a parameter or a nondeterministic step: which DMA mappings succeed, how the
hardware answers a rule request, the clock, which FOE entries are bound, what the firmware does between polls.

## Where the code does not do what one might expect

Each of these has a lemma with a concrete input or run, given first, and the exact condition, given second:

- The sweep of the shrink table gates 32-bit strides on words of the machine's width, so a slot with a bound user
  can be swept (`ShrinkTable.BoundUserMayBeSwept`, `ShrinkTable.SweepKeepsExactly`).
- The wait loop of the PHY mailbox stops on an ERROR before it looks at the parity, so the error of one command can
  end the wait of the next (`PhyIpc.StaleErrorLosesCommands`, `PhyIpc.StepKeepsStep`).
- The mailbox synchronisation is fooled when the first NOOP is still under way as the second is written
  (`PhyIpc.LateNoopFoolsSync`, `PhyIpc.SyncGetsInStep`).
- Unwinding a packet after its first fragment rotates the free list, and the descriptor chain no longer leads to its
  head (`TxRingRuns.LateFailureBreaksChain`, `TxRingRuns.ChainedUnlessFailsLate`).
- Weights above 255 are cut to 8 bits (`TxQos.Weight256ReadsZero`, `TxQos.SetThenGet`), and the XSI search gives a
  bucket of two units for a request of one (`BucketShift.XsiSearchIsLeastShift`, at value = unit).
- A packet rate with a tick under 16 microseconds is programmed wrong, because its unit leaves 16 bits
  (`TokenRate.ShortTickWraps`, `TokenRate.PacketUnitFits`).
- Turning mac_swap off while the Ethernet device is away forgets the indices and leaves the keys on the blacklist for
  good (`MacSwapRuns.AwayStrandsKeys`, `MacSwapRuns.OffRestores`).
- The FIT rewriter refuses an alias node with two `data` properties only after the rewrite, in its self-check
  (`FitDuplicate.SelfChecksFail`, `FitDedup.SelfCheck`).
- LOCAL_IN may publish a device onto a session that has ended since its lookup; the device reference is lost when
  the slot is taken again (`WifiLoRuns.LatePublishLeaks`, `WifiLoRuns.NothingLeaksIffPublishesInTime`).
- The timer puts a session's socket without waiting for readers, so prepare_gro may write the mark of a socket the
  module no longer holds (`WifiLoRuns.MarkAfterRelease`, `WifiLoRuns.StepKeepsMarks`).
- Update memory is written outside the shrink table's lock. While a MAC is being changed its old value is still
  found, over a row that no longer holds it (`ShrinkTable.StaleHitInWindow`, `ShrinkTable.MirrorsInWindow`), and a
  slot not yet pinned can be taken by a lookup before the pin, which leaves the row wrong
  (`ShrinkTable.ReusedRowIsLost`, `ShrinkTable.MisstoreIsClobber`).
- A MAC change and a lookup share the data register of update memory, and only the lookup takes the lock. Either can
  put its word there between the other's data and control writes, and the other's row is then left wrong, pinned or
  not (`ShrinkTable.LookupInsideSpoilsChange` and `ShrinkTable.ChangeInsideSpoilsLookup`,
  `ShrinkTable.ChangesOfPinnedRowsAreSafe`).
- When the Ethernet device is away as the last dynamic_ifc session ends, the saved LRO value is kept and put back
  later over what others have written since (`DynamicIfcRuns.StaleValueIsRestored`, `DynamicIfcRuns.RegisterStaysOk`).

## Model

| member | source | states |
|---|---|---|
| `FitDedup.Dedup` | cascade/image/srg-fit-dedup.py:104-163 | for every input whatever: a file is written only when the layout is good and the two payloads exist and hold equal bytes, and only one that passes the self-checks; on a well-formed blob whose alias has no accessor yet it is written if and only if the payload can be aliased (also: the nodes differ, alias has no second data property, the result stays under 32 bits), and what is written is the rewrite; a second `data` of alias is told as such, and so, on any file that opens, is a failure of either walk, a missing payload or a different one, source looked for first |
| `FitDedup.WrittenFileMeaning` | cascade/image/srg-fit-dedup.py:125-149 | parsing the written file yields the original (path, name, value) entries in order with alias's `data` alone replaced, in place, by `data-position` and `data-size`; the file passes the layout check |
| `FitDedup.WrittenFileServesThePayload` | cascade/image/srg-fit-dedup.py:143-149 | the bytes of the written file at [data-position, data-position + data-size) are alias's original payload, whether source precedes or follows alias |
| `FitDedup.RewritePreservesMeaning` | cascade/image/srg-fit-dedup.py:125-141 | the walk of any rewritten well-formed blob is the original meaning with entry k replaced by the two accessors, for any position and size |
| `FitDedup.ValueMoves` | cascade/image/srg-fit-dedup.py:131-141 | every other value is found unchanged at its offset shifted by delta exactly when it stood behind the cut |
| `FitDedup.PayloadFollows` | cascade/image/srg-fit-dedup.py:143-149 | source's bytes sit at the offset the re-walk computes, whatever placeholder is in the accessors |
| `FitDedup.PatchIsRewrite` | cascade/image/srg-fit-dedup.py:127-149 | patching the placeholder gives the same bytes as building with the position known, so it changes no other entry |
| `FitDedup.AliasLookups` | cascade/image/srg-fit-dedup.py:148-156 | on the rewritten property list the first data-position and data-size of alias are the new ones, and a `data` of alias remains if and only if the input had a second one |
| `FitDedup.SourceLookup` | cascade/image/srg-fit-dedup.py:145 | the lookup of source finds the same property before and after the rewrite |
| `FitDedup.LookupElsewhere` | cascade/image/srg-fit-dedup.py:93-97 | a lookup the replaced entry did not answer finds the same property, one index later if it stood behind |
| `FitDedup.LookupGone` | cascade/image/srg-fit-dedup.py:153-154 | the removed entry is still answered if and only if a later duplicate exists |
| `FitDedup.LookupNew` | cascade/image/srg-fit-dedup.py:148-156 | a lookup only the new entries answer finds the new one |
| `FitDedup.ImagePathInjective` | cascade/image/srg-fit-dedup.py:114-115 | different image names give different node paths |
| `FitDedup.PropBuild` | cascade/image/srg-fit-dedup.py:100-101 | packs exactly the values that fit 32 bits, and fails on all others |
| `FitDedup.Splice` | cascade/image/srg-fit-dedup.py:125-141 | assembling by concatenation and patching the four header fields gives the specified rewrite whenever it fits, and fails when it does not |
| `FitDedup.MustFind` | cascade/image/srg-fit-dedup.py:145-148 | a lookup unpacked at once: the first match, or the walk's failure, or the failure of unpacking None |
| `FitDedup.OpenChecked` | cascade/image/srg-fit-dedup.py:111-112 | opens exactly the files of 40 bytes or more with the magic, whose header words put the reserve map before the structure before the strings, the strings end within the total size, and whose length is the total size; each refusal has its own failure |
| `FitDedup.SelfCheck` | cascade/image/srg-fit-dedup.py:151-158 | on any file at all the final checks pass if and only if it opens with a good layout, no `data` of alias is left and the accessors read as recorded; data left over and accessors that read otherwise are told apart |
| `FitDedup.RewrittenChecks` | cascade/image/srg-fit-dedup.py:151-158 | the rewritten file passes them if and only if alias had no second `data` and the recorded size is source's |
| `FitDedup.PatchPosition` | cascade/image/srg-fit-dedup.py:143-158 | re-walk, patch and self-check succeed if and only if the nodes differ and alias had one `data`, and then give the specified file, and a second `data` is told as such; whatever is built, only a self-consistent file is passed on |
| `FitDuplicate.TwoDataProperties` | cascade/image/srg-fit-dedup.py:153-154 | a 165-byte well-formed file, every byte given, that meets every condition for aliasing a to b except that a has two `data` properties |
| `FitDuplicate.SelfChecksFail` | cascade/image/srg-fit-dedup.py:151-158 | whatever position and size the file built from it records, the self-checks refuse it |
| `FitRewrite.RewriteWalk` | cascade/image/srg-fit-dedup.py:66-141 | from any point before the cut the walk of the rewritten blob is the old walk with entry k replaced |
| `FitRewrite.SpliceWalk` | cascade/image/srg-fit-dedup.py:125-141 | from the cut on: the two new properties with their names, then the old rest shifted by delta |
| `FitRewrite.SuffixCarries` | cascade/image/srg-fit-dedup.py:66-91 | the walk commutes with moving the structure block |
| `FitRewrite.StepCarries` | cascade/image/srg-fit-dedup.py:66-91 | one step of the walk reads only its own bytes and its name, so it commutes with moving both |
| `FitRewrite.RewrittenIsRewrite` | cascade/image/srg-fit-dedup.py:133-144 | the rewritten bytes open again with the shifted header fields and pass the layout check |
| `Fdt.PropFind` | cascade/image/srg-fit-dedup.py:66-97 | the loop over tokens with its node stack returns what the specification of the walk and of the lookup says, failures included |
| `Fdt.FirstMatchIsFirstIndex` | cascade/image/srg-fit-dedup.py:93-97 | prop_find returns the property at the first matching index; a walk's failure shows only when nothing matched before it |
| `Fdt.CompleteWalkInOrder` | cascade/image/srg-fit-dedup.py:66-91 | a walk that reaches FDT_END yields properties in order, disjoint, inside the structure block |
| `Fdt.StepAt` | cascade/image/srg-fit-dedup.py:70-90 | each step of the walk advances by at least one token |
| `Fdt.NameCarries` | cascade/image/srg-fit-dedup.py:61-64 | a NUL-terminated name is read the same wherever its bytes are moved |
| `Fdt.PackedWordReads` | cascade/image/srg-fit-dedup.py:30-31 | a packed big-endian word reads back as its number at any offset |
| `FitSlack.SlackOpens` | cascade/image/srg-fit-dedup.py:45-57 | a well-formed file with any other bytes behind its strings block, counted in its total size, opens as the same blocks |
| `FitSlack.SlackKeepsTree` | cascade/image/srg-fit-dedup.py:45-91 | it is well-formed too, and says the same tree, value for value |
| `FitSlack.SlackKeepsOutcome` | cascade/image/srg-fit-dedup.py:104-163 | of two runs on files that differ in slack only, the one writes exactly when the other does, and then the same bytes |
| `FitTree.WalkReadsTree` | cascade/image/srg-fit-dedup.py:66-91 | the walk of any tree, written token by token as the Devicetree Specification says (section 5.4), yields its properties in order with their paths, names and values, and ends well |
| `FitTree.WalkStops` | cascade/image/srg-fit-dedup.py:66-91 | where a walk stops and with which failure: it ends well at the end token only |
| `FitTree.NamesAre` | cascade/image/srg-fit-dedup.py:22-149 | the names looked for and written, as ASCII, and the path of an image node |
| `FdtText.Utf8IsEncodedText` | cascade/image/srg-fit-dedup.py:61-64 | the names that decode are exactly the UTF-8 encodings of sequences of Unicode scalar values |
| `WifiLoRuns.RunsAreSafe` | cascade/files/drivers/net/ethernet/airoha/arht_wifi_lo.c:516-899 | over every interleaving of adds, expiries, LOCAL_IN hooks, RX readers, RCU callbacks and the sync worker: the WARN branch is not reached, nothing is released twice or queued twice, DEV_RELEASING is set exactly while the slot's rcu_head is queued, no slot is live and releasing; the devices published after their session ended are exactly those in dead slots and those overwritten |
| `WifiLoRuns.NothingLeaksIffPublishesInTime` | cascade/files/drivers/net/ethernet/airoha/arht_wifi_lo.c:516-566 | in every run no device reference is overwritten and every slot with a device is live, if and only if every publish came before the timer took the device of the session it was meant for, or found a new session in the slot |
| `WifiLoRuns.LatePublishLeaks` | cascade/files/drivers/net/ethernet/airoha/arht_wifi_lo.c:856-868 | a run of nine steps in which the session ends between LOCAL_IN's lookup and its publish, and the next add overwrites the device |
| `WifiLoRuns.LeakedStaysLeaked` | cascade/files/drivers/net/ethernet/airoha/arht_wifi_lo.c:516-899 | an overwritten reference stays out whatever step follows |
| `WifiLoRuns.ReadersNeverHoldAReleasedDevice` | cascade/files/drivers/net/ethernet/airoha/arht_wifi_lo.c:495-646 | in every run a reader about to dev_hold does so while the module's reference is still out: in the slot, with a callback that cannot run yet, or leaked |
| `WifiLoRuns.HoldIsSafe` | cascade/files/drivers/net/ethernet/airoha/arht_wifi_lo.c:629-646 | the same for any state meeting the invariant |
| `WifiLoRuns.ReferencesAreAccountedFor` | cascade/files/drivers/net/ethernet/airoha/arht_wifi_lo.c:516-899 | in every run the sock, dst and device references out equal those held by slots, threads, readers, pending callbacks and, for devices, those overwritten; none is overwritten when every publish is in time |
| `WifiLoRuns.QuietMeansNothingHeld` | cascade/files/drivers/net/ethernet/airoha/arht_wifi_lo.c:747-815 | once no session, thread, reader or callback is left the counter is 0, every sock and dst reference has been released, and every device reference has if and only if every publish was in time |
| `WifiLoRuns.MarksAreSafe` | cascade/files/drivers/net/ethernet/airoha/arht_wifi_lo.c:637-641 | in every run without the two endangering steps, every mark of prepare_gro is written to a socket the module holds a reference on |
| `WifiLoRuns.WaitingMakesMarksSafe` | cascade/files/drivers/net/ethernet/airoha/arht_wifi_lo.c:637-814 | so it is in every run in which a socket is put only after the readers that were inside rcu_read_lock at its session's end have left |
| `WifiLoRuns.StepKeepsMarks` | cascade/files/drivers/net/ethernet/airoha/arht_wifi_lo.c:637-641 | from a state where every reader about to write a mark has the socket's reference behind it, a step breaks that if and only if it drops the last reference under such a reader, or lets a reader win the flag after that |
| `WifiLoRuns.MarksOkMeans` | cascade/files/drivers/net/ethernet/airoha/arht_wifi_lo.c:637-641 | that condition on a state holds if and only if no write of a mark enabled in it reaches a socket the module does not hold |
| `WifiLoRuns.MarkAfterRelease` | cascade/files/drivers/net/ethernet/airoha/arht_wifi_lo.c:637-814 | a run of thirteen steps in which the timer puts the socket between a reader's test of the flag and its write of the mark |
| `WifiLoRuns.TimerClearsAHeldSocket` | cascade/files/drivers/net/ethernet/airoha/arht_wifi_lo.c:768-773 | the timer's own write of the mark is to a socket whose reference is still out |
| `WifiLoRuns.LookupsAreScans` | cascade/files/drivers/net/ethernet/airoha/arht_wifi_lo.c:377-411 | in every run lookup by port pair and by nonzero hash finds a session exactly when a linear scan for a VALID match would |
| `WifiLoRuns.KeyNeverLost` | cascade/files/drivers/net/ethernet/airoha/arht_wifi_lo.c:82-97 | in every run the static key differs from (count > 0) only while a sync is pending, running or about to be scheduled; between table and counter updates the count is positive exactly when a session is live |
| `WifiLoRuns.StepKeepsInv` | cascade/files/drivers/net/ethernet/airoha/arht_wifi_lo.c:359-977 | every step of every context keeps the invariant |
| `WifiLoRuns.RunKeepsInv` | cascade/files/drivers/net/ethernet/airoha/arht_wifi_lo.c:359-977 | every reachable state meets the invariant |
| `WifiLoTable.PortLookupIsScan` | cascade/files/drivers/net/ethernet/airoha/arht_wifi_lo.c:398-411 | on a consistent table the port hash lookup is a scan |
| `WifiLoTable.HashLookupIsScan` | cascade/files/drivers/net/ethernet/airoha/arht_wifi_lo.c:377-396 | on a consistent table the FOE hash lookup is a scan, and hash 0 never matches |
| `WifiLoTable.FreeFrom` | cascade/files/drivers/net/ethernet/airoha/arht_wifi_lo.c:845-856 | the slot taken is the lowest that is neither live nor waiting for its callback |
| `WifiLoTable.InstallKeepsIndex` | cascade/files/drivers/net/ethernet/airoha/arht_wifi_lo.c:856-876 | adding a session keeps both indexes exact, and the slot was in neither before |
| `WifiLoTable.ExpireKeepsIndex` | cascade/files/drivers/net/ethernet/airoha/arht_wifi_lo.c:779-796 | ending a session keeps both indexes exact and removes it from both |
| `WifiLoTable.StampKeepsIndex` | cascade/files/drivers/net/ethernet/airoha/arht_wifi_lo.c:912-920 | publishing a hash keeps both indexes exact |
| `WifiLoTable.Sessions.FindByPort` | cascade/files/drivers/net/ethernet/airoha/arht_wifi_lo.c:398-411 | walks the bucket's chain and returns the specified lookup |
| `WifiLoTable.Sessions.FindByHash` | cascade/files/drivers/net/ethernet/airoha/arht_wifi_lo.c:377-396 | the same for the FOE hash, with its guard for 0 |
| `WifiLoTable.Sessions.AddEty` | cascade/files/drivers/net/ethernet/airoha/arht_wifi_lo.c:844-899 | takes the first reusable slot and leaves the specified table, or changes nothing and reports it (the LRO save of line 883 is left out) |
| `WifiLoTable.Sessions.FreeDev` | cascade/files/drivers/net/ethernet/airoha/arht_wifi_lo.c:516-535 | moves a published device to the pending release exactly when there is one |
| `WifiLoTable.Sessions.Timeout` | cascade/files/drivers/net/ethernet/airoha/arht_wifi_lo.c:747-796 | re-arms an active session, else leaves the specified expired table and hands out the references to drop, the socket whose mark is cleared and the ports the PPE is asked to clean |
| `WifiLoTable.Sessions.HashPublish` | cascade/files/drivers/net/ethernet/airoha/arht_wifi_lo.c:912-920 | stamps a hash once, under the source's guards |
| `WifiLoTable.Sessions.PublishIngressDev` | cascade/files/drivers/net/ethernet/airoha/arht_wifi_lo.c:542-566 | publishes a device once, under the source's guards, and reports whether the reference was kept |
| `WifiLoSlots.StepActs` | cascade/files/drivers/net/ethernet/airoha/arht_wifi_lo.c:516-920 | what each step of each context does to what each slot says, told on the steps alone: an add takes the lowest slot neither live nor waiting, a transmit stamps after a quarter of a second, a timer a second after the stamp ends, a publish onto a slot without a device is kept exactly when it is no bridge and, if only those are wanted, a wifi one, a hash is stamped once, a mark set once |
| `WifiLoSlots.RunSays` | cascade/files/drivers/net/ethernet/airoha/arht_wifi_lo.c:516-920 | so in every run each slot is what its steps have made it, and IS_WIFI is set exactly when it caches a device that was published as a wifi one |
| `WifiLoSlots.KnownDevicesWerePublished` | cascade/files/drivers/net/ethernet/airoha/arht_wifi_lo.c:542-566 | in every run a device in a slot, pending release, loaded or held by a reader, in a callback's hands or overwritten was published by a step with no bridge and, if that step wanted only wifi devices, with a wifi one |
| `WifiLoSlots.NewDevice` | cascade/files/drivers/net/ethernet/airoha/arht_wifi_lo.c:542-566 | a reference to a device the module had none to comes from such a publish only |
| `WifiLoSlots.SeenStaysLive` | cascade/files/drivers/net/ethernet/airoha/arht_wifi_lo.c:747-796 | a session last seen at t or later outlives, with its socket, route and device, any step that is no timer of it at t plus a second or later |
| `WifiLoSlots.SeenSessionSurvives` | cascade/files/drivers/net/ethernet/airoha/arht_wifi_lo.c:747-796 | the same over any run |
| `WifiLoSlots.TransmitIsSeen` | cascade/files/drivers/net/ethernet/airoha/arht_wifi_lo.c:1001-1004 | after a transmit the stamp is less than a quarter of a second old |
| `WifiLoSlots.SilentSessionEnds` | cascade/files/drivers/net/ethernet/airoha/arht_wifi_lo.c:747-796 | a timer a second or more after the stamp ends the session and leaves the slot without socket, route, device or IS_WIFI |
| `WifiLoOrder.AddedIsFound` | cascade/files/drivers/net/ethernet/airoha/arht_wifi_lo.c:856-876 | after an add its port pair finds the new session even if others have the pair, and every other lookup is as before |
| `WifiLoOrder.StampedIsFound` | cascade/files/drivers/net/ethernet/airoha/arht_wifi_lo.c:912-920 | after a stamp its hash finds that session, and every other lookup is as before |
| `WifiLoOrder.ExpireKeepsLookups` | cascade/files/drivers/net/ethernet/airoha/arht_wifi_lo.c:779-796 | the end of a session changes no lookup that did not find it |
| `DynamicIfcRuns.RingsAreExclusive` | cascade/files/drivers/net/ethernet/airoha/arht_dynamic_ifc.c:96-259 | in every run reservation i holds k exactly when session k is live with a live rule on ring 12 + i, and no session owns two |
| `DynamicIfcRuns.HardwareMatchesSessions` | cascade/files/drivers/net/ethernet/airoha/arht_dynamic_ifc.c:155-259 | in every run the hardware rules are exactly the port pairs of live sessions with a live rule, and live sessions have different port pairs |
| `DynamicIfcRuns.ReferencesAreAccountedFor` | cascade/files/drivers/net/ethernet/airoha/arht_dynamic_ifc.c:413-940 | in every run the sock and dst references out equal the live sessions' fields plus pending releases; an ended session holds none |
| `DynamicIfcRuns.RegisterStaysOk` | cascade/files/drivers/net/ethernet/airoha/arht_dynamic_ifc.c:261-305 | with the device going up and down and other writers at any time: all along a run the LRO field is untouched or its other writers' value is remembered, and it is touched exactly while a session is live with the device up, if and only if no other writer changes it while it is saved, no last session ends while the device is away, and the device does not come up under sessions added without it |
| `DynamicIfcRuns.StepKeepsRegister` | cascade/files/drivers/net/ethernet/airoha/arht_dynamic_ifc.c:261-305 | a step keeps that if and only if it is none of the three |
| `DynamicIfcRuns.RegisterIsRestored` | cascade/files/drivers/net/ethernet/airoha/arht_dynamic_ifc.c:261-305 | in every such run with no live session the LRO field holds what other writers last put there; while one is live and the device up that value is remembered |
| `DynamicIfcRuns.SteadyRunsRestore` | cascade/files/drivers/net/ethernet/airoha/arht_dynamic_ifc.c:261-305 | so it is in every run with the device steadily up or down and no other writer while a session is live |
| `DynamicIfcRuns.StaleValueIsRestored` | cascade/files/drivers/net/ethernet/airoha/arht_dynamic_ifc.c:261-305 | a run of eight steps in which the device is away when the only session ends, and the next session's end puts back a value older than the other writers' last |
| `DynamicIfcRuns.ReclaimBranchIsDead` | cascade/files/drivers/net/ethernet/airoha/arht_dynamic_ifc.c:96-129 | no reservation is ever stale, so the reclaim branch never fires |
| `DynamicIfcRuns.DefaultRingOnlyWhenFull` | cascade/files/drivers/net/ethernet/airoha/arht_dynamic_ifc.c:96-190 | a new rule gets the lowest free ring, and default ring 1 exactly when all four are owned by other live rules |
| `DynamicIfcRuns.AddIfcKeepsCore` | cascade/files/drivers/net/ethernet/airoha/arht_dynamic_ifc.c:155-217 | adding a rule, with any answer of the hardware, keeps rings, rules and sessions consistent |
| `DynamicIfcRuns.EndKeepsCore` | cascade/files/drivers/net/ethernet/airoha/arht_dynamic_ifc.c:413-478 | ending a session frees its rule and ring and changes nobody else's |
| `DynamicIfcRuns.AddEntryKeepsCore` | cascade/files/drivers/net/ethernet/airoha/arht_dynamic_ifc.c:641-684 | a session added from a socket never duplicates a live port pair |
| `DynamicIfcRuns.ReceiveKeepsCore` | cascade/files/drivers/net/ethernet/airoha/arht_dynamic_ifc.c:687-739 | receiving keeps rings, rules and sessions consistent |
| `DynamicIfcRuns.StepKeepsInv` | cascade/files/drivers/net/ethernet/airoha/arht_dynamic_ifc.c:413-940 | every step keeps the invariant |
| `DynamicIfcRuns.RunKeepsInv` | cascade/files/drivers/net/ethernet/airoha/arht_dynamic_ifc.c:413-940 | every reachable state meets the invariant |
| `DynamicIfc.Driver.GetFreeLroRing` | cascade/files/drivers/net/ethernet/airoha/arht_dynamic_ifc.c:96-129 | scans the reservations and returns the specified ring and new table |
| `DynamicIfc.Driver.ReleaseLroRing` | cascade/files/drivers/net/ethernet/airoha/arht_dynamic_ifc.c:132-144 | frees the reservation of the session, and only that |
| `DynamicIfc.Driver.AddRule` | cascade/files/drivers/net/ethernet/airoha/arht_dynamic_ifc.c:155-217 | the whole new state after a rule is requested, for each hardware answer |
| `DynamicIfc.Driver.DelRule` | cascade/files/drivers/net/ethernet/airoha/arht_dynamic_ifc.c:224-259 | the whole new state after a rule is removed |
| `DynamicIfc.Driver.SaveAndSetAggNum` | cascade/files/drivers/net/ethernet/airoha/arht_dynamic_ifc.c:261-284 | saves the field once and writes the new value |
| `DynamicIfc.Driver.RestoreAggNum` | cascade/files/drivers/net/ethernet/airoha/arht_dynamic_ifc.c:286-305 | writes the saved field back once |
| `DynamicIfc.Driver.FindByPort` | cascade/files/drivers/net/ethernet/airoha/arht_dynamic_ifc.c:397-411 | the first live session with the port pair |
| `DynamicIfc.Driver.AddEntryFromSock` | cascade/files/drivers/net/ethernet/airoha/arht_dynamic_ifc.c:641-684 | the whole new state after a socket is offered |
| `DynamicIfc.Driver.HandleTcpDoRcv` | cascade/files/drivers/net/ethernet/airoha/arht_dynamic_ifc.c:687-739 | the whole new state after a segment, with the route reference swapped in and the old one handed out |
| `DynamicIfc.Driver.HandleLocalOut` | cascade/files/drivers/net/ethernet/airoha/arht_dynamic_ifc.c:758-850 | the whole new state after a transmit, with the route reference swapped (building and sending the header after the lock is left out) |
| `DynamicIfc.Driver.Timeout` | cascade/files/drivers/net/ethernet/airoha/arht_dynamic_ifc.c:413-478 | re-arms or ends the session; hands out what it held; restores the register after the last one |
| `DynamicIfc.Driver.CleanupAllSessions` | cascade/files/drivers/net/ethernet/airoha/arht_dynamic_ifc.c:897-940 | the second locked pass: ends every session, collecting exactly the references they held, and restores the register |
| `DynamicIfcFlows.StepActs` | cascade/files/drivers/net/ethernet/airoha/arht_dynamic_ifc.c:413-940 | what each step does to the map from port pairs to flows, told on the steps alone: an add puts a new pair in unless all 8 slots are live, a receive swaps the route and takes a rule once the rate is reached and the hardware agrees, a transmit swaps the route and stamps, a timer a second after the stamp ends, the cleanup empties it |
| `DynamicIfcFlows.RunShowsFlows` | cascade/files/drivers/net/ethernet/airoha/arht_dynamic_ifc.c:413-940 | so in every run the live sessions are exactly the flows its steps have made |
| `DynamicIfcFlows.SeenStaysLive` | cascade/files/drivers/net/ethernet/airoha/arht_dynamic_ifc.c:780-795 | a session added or transmitting at t is still live, with its socket and rule, after any step but a cleanup or a timer of it at t plus a second or later |
| `DynamicIfcFlows.SeenSessionSurvives` | cascade/files/drivers/net/ethernet/airoha/arht_dynamic_ifc.c:780-795 | the same over any run, which is what the code after the lock relies on |
| `DynamicIfcFlows.SilentSessionEnds` | cascade/files/drivers/net/ethernet/airoha/arht_dynamic_ifc.c:413-478 | a timer a second or more after the last transmit ends the session and takes its rule out of the hardware |
| `DynamicIfcFlows.HookFollowsPhase` | cascade/files/drivers/net/ethernet/airoha/arht_dynamic_ifc.c:155-259 | in every run the hardware hook is there from enable until the cleanup is over |
| `DynamicIfcFlows.PingpongUsesTx` | cascade/files/drivers/net/ethernet/airoha/arht_dynamic_ifc.c:586-606 | a keep-alive answer takes a reference on the session's transmit route while it uses it, if there is one |
| `DynamicIfcRules.RingChosen` | cascade/files/drivers/net/ethernet/airoha/arht_dynamic_ifc.c:96-129 | in any state: the lowest reservation that is the session's own or names a session without a live rule is taken, else the lowest free one, else ring 1 |
| `DynamicIfcRules.RefusedLeavesNothing` | cascade/files/drivers/net/ethernet/airoha/arht_dynamic_ifc.c:173-208 | a request the hardware refuses leaves rings, rules and other sessions as they were |
| `DynamicIfcRules.RemoveUndoesAdd` | cascade/files/drivers/net/ethernet/airoha/arht_dynamic_ifc.c:155-259 | removing a rule just added restores rings and rules and clears the session's index and ring number |
| `DynamicIfcRules.RemoveWithoutHook` | cascade/files/drivers/net/ethernet/airoha/arht_dynamic_ifc.c:224-259 | without the hook the session is cleared and its ring given back, and the hardware keeps the rule |
| `DynamicIfcRules.AddedSession` | cascade/files/drivers/net/ethernet/airoha/arht_dynamic_ifc.c:641-684 | in any state: the slot an add takes, every field it leaves there and in the register, or nothing |
| `DynamicIfcRules.TimersAreMarked` | cascade/files/drivers/net/ethernet/airoha/arht_dynamic_ifc.c:874-890 | the first cleanup pass stops exactly the running timers of live sessions |
| `ShrinkTable.FindReturnsLowest` | cascade/files/drivers/net/ethernet/airoha/arht_ppe.c:718-809 | a lookup returns the lowest match, else the lowest invalid or expired unpinned slot, and nothing exactly when every slot is valid, different, and pinned or unexpired |
| `ShrinkTable.FindKeepsDistinct` | cascade/files/drivers/net/ethernet/airoha/arht_ppe.c:718-809 | a lookup never creates a second valid copy of a value |
| `ShrinkTable.RunStaysSafe` | cascade/files/drivers/net/ethernet/airoha/arht_ppe.c:631-809 | over any interleaving of sweeps, lookups and MAC changes of any rows, word by word (a data register write, then a control register write): all along, the rows are in order and each control write still due would store its writer's word, if and only if no data write of another word comes between the two writes of one and no lookup's word goes over a different one that a change of the row has stored |
| `ShrinkTable.RunKeepsMirror` | cascade/files/drivers/net/ethernet/airoha/arht_ppe.c:631-809 | and then every valid slot's content is what hardware update memory holds once nothing is being written |
| `ShrinkTable.RowsStayInOrder` | cascade/files/drivers/net/ethernet/airoha/arht_ppe.c:631-809 | the rows are in order all along a run if and only if none of its control writes finds another word in the data register than the row should get |
| `ShrinkTable.StepKeepsInv` | cascade/files/drivers/net/ethernet/airoha/arht_ppe.c:631-809 | a step keeps every stored word the one it should be (the new MAC's as far as a change has come, else the slot's) if and only if it is not such a control write |
| `ShrinkTable.StepKeepsArmed` | cascade/files/drivers/net/ethernet/airoha/arht_ppe.c:625-662 | a step keeps every pending control write's word in the data register if and only if it is not another writer's data write of a different word |
| `ShrinkTable.InterposedMisstores` | cascade/files/drivers/net/ethernet/airoha/arht_ppe.c:625-662 | after such a data write the other writer's control write, if it comes next, stores the wrong word |
| `ShrinkTable.MisstoreIsClobber` | cascade/files/drivers/net/ethernet/airoha/arht_ppe.c:631-809 | with no data write in between, a control write goes wrong if and only if it is a lookup's over a different word that a change of the row has stored |
| `ShrinkTable.MirrorsInWindow` | cascade/files/drivers/net/ethernet/airoha/arht_ppe.c:3545-3562 | while a row is being changed its slot mirrors it if and only if its content agrees with the new MAC in the words stored so far |
| `ShrinkTable.ChangesOfPinnedRowsAreSafe` | cascade/files/drivers/net/ethernet/airoha/arht_ppe.c:3545-3562 | with MAC changes of pinned rows only, a run stays safe if and only if no data write of another word comes between the two writes of one; then the changes cost no mirror |
| `ShrinkTable.LookupInsideSpoilsChange` | cascade/files/drivers/net/ethernet/airoha/arht_ppe.c:3545-3562 | a run of ten steps changing the pinned PON row, in which a lookup writes its row between the first word's two writes; in the end slot 14 holds the new MAC over a row that does not, though nothing was clobbered |
| `ShrinkTable.ChangeInsideSpoilsLookup` | cascade/files/drivers/net/ethernet/airoha/arht_ppe.c:625-662 | a run of ten steps in which the change writes a word between the two writes of the lookup's; in the end the lookup's slot is valid over a row with a word of the PON MAC |
| `ShrinkTable.StaleHitInWindow` | cascade/files/drivers/net/ethernet/airoha/arht_ppe.c:3545-3562 | a run that ends inside a change of the PON MAC: a lookup of the old one returns slot 14 although the row no longer holds it |
| `ShrinkTable.ReusedRowIsLost` | cascade/files/drivers/net/ethernet/airoha/arht_ppe.c:3545-3562 | a run in which a lookup takes slot 0 between the writes and the pin of its first change, after which slot and row differ with nothing being written |
| `ShrinkTable.ChangeAloneInstalls` | cascade/files/drivers/net/ethernet/airoha/arht_ppe.c:3545-3562 | the steps of a change with nothing in between are the whole change |
| `ShrinkTable.LookupAloneIsLookup` | cascade/files/drivers/net/ethernet/airoha/arht_ppe.c:718-809 | the steps of a lookup with nothing in between are the whole lookup, for each kind of value |
| `ShrinkTable.LookupKeepsMirror` | cascade/files/drivers/net/ethernet/airoha/arht_ppe.c:718-809 | an index returned names a valid slot holding exactly the value asked for, in software and in hardware |
| `ShrinkTable.PinnedSurvives` | cascade/files/drivers/net/ethernet/airoha/arht_ppe.c:664-767 | a pinned slot stays valid with the same content over any run of lookups, sweeps and MAC changes, of other slots too, in which no other MAC is pinned to it |
| `ShrinkTable.StepKeepsPinned` | cascade/files/drivers/net/ethernet/airoha/arht_ppe.c:429-440 | a step loses a pinned slot's content if and only if it pins another MAC to it |
| `ShrinkTable.SweepOnlyInvalidates` | cascade/files/drivers/net/ethernet/airoha/arht_ppe.c:664-716 | a sweep changes no content and touches no pinned or fresh slot |
| `ShrinkTable.SweepKeepsExactly` | cascade/files/drivers/net/ethernet/airoha/arht_ppe.c:664-716 | an expired slot survives a sweep exactly when the scan examines a bound user: its bit is set and its stride is entered through a word whose index matches |
| `ShrinkTable.BoundUserMayBeSwept` | cascade/files/drivers/net/ethernet/airoha/arht_ppe.c:684-692 | from the initial table, a lookup by FOE entry 32 and a sweep: the slot is gone although that entry, its recorded user, is bound |
| `ShrinkTable.Ipv6OffsetsPermute` | cascade/files/drivers/net/ethernet/airoha/arht_ppe.c:631-662 | the IPv6 lines land on a permutation of offsets 0 to 7 |
| `ShrinkTable.RowDeterminesValue` | cascade/files/drivers/net/ethernet/airoha/arht_ppe.c:631-662 | two values written to the same row are equal: no value is lost in the word layout |
| `ShrinkTable.WriteRowHolds` | cascade/files/drivers/net/ethernet/airoha/arht_ppe.c:631-662 | writing a row stores each word at its offset and touches no other row |
| `ShrinkTable.PinKeepsMirror` | cascade/files/drivers/net/ethernet/airoha/arht_ppe.c:429-440 | pinning any row keeps the mirror if and only if hardware holds the address by then |
| `ShrinkTable.InstallKeepsMirror` | cascade/files/drivers/net/ethernet/airoha/arht_ppe.c:3545-3562 | writing both words and pinning, with nothing in between, keeps the mirror and leaves the slot with the new address, for any row |
| `ShrinkTable.Table.SetShrinkField` | cascade/files/drivers/net/ethernet/airoha/arht_ppe.c:631-662 | the loop over lines leaves exactly the specified update memory |
| `ShrinkTable.Table.UpdateShrinkTable` | cascade/files/drivers/net/ethernet/airoha/arht_ppe.c:429-440 | pins the slot with the address, and nothing for an index out of range |
| `ShrinkTable.Table.InitUpdMem` | cascade/files/drivers/net/ethernet/airoha/arht_ppe.c:3545-3562 | writes the two words and pins, for the PON slot as for a port's |
| `ShrinkTable.Table.ScanBitmap` | cascade/files/drivers/net/ethernet/airoha/arht_ppe.c:681-706 | the word and bit loops find a bound user exactly as specified, dropping the unbound bits they pass |
| `ShrinkTable.Table.ReuseShrinkTable` | cascade/files/drivers/net/ethernet/airoha/arht_ppe.c:664-716 | sweeps all columns to the specified state |
| `ShrinkTable.Table.FindAndUpdate` | cascade/files/drivers/net/ethernet/airoha/arht_ppe.c:718-809 | the two scans, the write and the sweep leave the specified state and index |
| `ShrinkTable.RowLayout` | cascade/files/drivers/net/ethernet/airoha/arht_ppe.c:631-662 | the words of a row as the hardware reads them: a MAC's low four bytes and high two, an IPv4 pair in order, each IPv6 address with its words reversed |
| `ShrinkLines.StepLine` | cascade/files/drivers/net/ethernet/airoha/arht_ppe.c:664-809 | what each step does to each line, told on the step alone: content, validity, stamp and recorded users after a lookup that returns it, passes it or takes it, a sweep and a pin |
| `ShrinkLines.LookupRecords` | cascade/files/drivers/net/ethernet/airoha/arht_ppe.c:796-803 | a lookup by an FOE entry in range that returns a line makes the entry a user of it |
| `ShrinkLines.UsersStay` | cascade/files/drivers/net/ethernet/airoha/arht_ppe.c:664-809 | over any run a user stays recorded, whatever other entries look the line up, while no sweep finds it unbound |
| `ShrinkLines.BoundUserKeepsSlot` | cascade/files/drivers/net/ethernet/airoha/arht_ppe.c:664-809 | so after any run a sweep that finds a user bound and enters its stride leaves the slot valid with its content |
| `L2bEtherType.SetAutoInserts` | cascade/files/drivers/net/ethernet/airoha/arht_ppe.c:4049-4086 | on the packed registers set-auto is insertion into the set of enabled (etype, pppoe) keys; it fails exactly when the key is absent and no entry is free |
| `L2bEtherType.ClearAutoRemoves` | cascade/files/drivers/net/ethernet/airoha/arht_ppe.c:4099-4126 | clear-auto is removal, and harmless for an absent key |
| `L2bEtherType.ClearUndoesSet` | cascade/files/drivers/net/ethernet/airoha/arht_ppe.c:4049-4126 | clearing a key just added restores the registers bit for bit |
| `L2bEtherType.ClearsCommute` | cascade/files/drivers/net/ethernet/airoha/arht_ppe.c:4099-4126 | clearing two different keys leaves the same registers in either order |
| `L2bEtherType.SetAutoTakesOneEntry` | cascade/files/drivers/net/ethernet/airoha/arht_ppe.c:3956-4086 | adding an absent key takes exactly one free entry |
| `L2bEtherType.GetPut` | cascade/files/drivers/net/ethernet/airoha/arht_ppe.c:3864-4032 | writing an entry through read-modify-write changes that entry and no other |
| `L2bEtherType.EntryIsFields` | cascade/files/drivers/net/ethernet/airoha/arht_ppe.c:3864-3925 | entry i is bit i, bit i + 16, and the low or high half of word i / 2 |
| `L2bEtherType.Ppe.Set` | cascade/files/drivers/net/ethernet/airoha/arht_ppe.c:3987-4032 | the specified new register image or the error, mirrored to the second PPE on a 7581 and only there |
| `L2bEtherType.Ppe.FindIndex` | cascade/files/drivers/net/ethernet/airoha/arht_ppe.c:3927-3939 | the first enabled entry with the key |
| `L2bEtherType.Ppe.FindFreeIndex` | cascade/files/drivers/net/ethernet/airoha/arht_ppe.c:3956-3968 | the first entry that is disabled with value 0 |
| `L2bEtherType.Ppe.SetTypeAuto` | cascade/files/drivers/net/ethernet/airoha/arht_ppe.c:4049-4086 | the specified set-auto, or ENODEV without a device |
| `L2bEtherType.Ppe.ClearTypeAuto` | cascade/files/drivers/net/ethernet/airoha/arht_ppe.c:4099-4126 | the specified clear-auto, or ENODEV without a device |
| `MacSwap.RunsNeverDrift` | cascade/files/drivers/net/ethernet/airoha/arht_loopback.c:347-436 | after any sequence of writes to the switch the registers and indices are those it started with or those of one enable, and while on the blacklist is the old one plus (0x0800, 0x86dd) and, for PPPoE, (0x0021, 0x0057) |
| `MacSwap.FailedEnableChangesNothing` | cascade/files/drivers/net/ethernet/airoha/arht_loopback.c:347-403 | a failed enable leaves every register, index and the flag as they were, at whichever stage it fails, and says ENOSPC |
| `MacSwap.EnableSucceedsWhenThereIsRoom` | cascade/files/drivers/net/ethernet/airoha/arht_loopback.c:347-386 | enable succeeds if and only if the free entries are at least as many as the missing keys |
| `MacSwap.EnableInserts` | cascade/files/drivers/net/ethernet/airoha/arht_loopback.c:347-386 | from any stage on a successful enable adds exactly the keys of these stages; an index is set exactly for a key that was missing |
| `MacSwap.EnableBlacklists` | cascade/files/drivers/net/ethernet/airoha/arht_loopback.c:347-386 | the four (ether type, PPPoE) keys a successful enable adds, and which index remembers which |
| `MacSwap.LastWriteDecides` | cascade/files/drivers/net/ethernet/airoha/arht_loopback.c:478-488 | whatever was written before: off restores the first registers, on puts the keys there if and only if there is room for the missing ones |
| `MacSwap.DisableUndoesEnable` | cascade/files/drivers/net/ethernet/airoha/arht_loopback.c:347-436 | disable, which clears in the order of adding, restores registers and indices bit for bit and keeps entries that were there before |
| `MacSwap.Loopback.Enable` | cascade/files/drivers/net/ethernet/airoha/arht_loopback.c:347-403 | the straight-line code with its rollback labels computes the specified enable, or ENODEV with nothing changed |
| `MacSwap.Loopback.Disable` | cascade/files/drivers/net/ethernet/airoha/arht_loopback.c:411-436 | computes the specified disable; without a device it forgets the indices and clears the flag |
| `MacSwap.Loopback.Write` | cascade/files/drivers/net/ethernet/airoha/arht_loopback.c:478-488 | the mac_swap branch of the proc handler, with or without a device: enable when off, disable when on, else nothing |
| `MacSwapRuns.RunsWithDevice` | cascade/files/drivers/net/ethernet/airoha/arht_loopback.c:347-488 | over every run of writes with the device coming and going: unless the switch was turned off once while the device was away, the registers and indices are the first ones or those of one enable; if it was, the keys stay there for good and no index remembers them |
| `MacSwapRuns.AwayStrandsKeys` | cascade/files/drivers/net/ethernet/airoha/arht_loopback.c:411-436 | from clear registers: on, off while the device is away, on and off again; the four keys are still on the blacklist |
| `MacSwapRuns.OffRestores` | cascade/files/drivers/net/ethernet/airoha/arht_loopback.c:411-488 | when a key was missing at first, off means the first registers if and only if the switch was never turned off while the device was away |
| `TxRing.SentFrameReadsBack` | cascade/files/drivers/net/ethernet/airoha/arht_dp_api.c:1100-1158 | following NEXT_ID from the old list head the hardware reads exactly the packet's fragments in order and stops at the new, existing list head, which is where the CPU index goes; every other descriptor and entry is unchanged |
| `TxRing.SentFrameFills` | cascade/files/drivers/net/ethernet/airoha/arht_dp_api.c:1109-1148 | the packet is remembered on its first entry alone, and each descriptor has its fragment's address and length cut to 16 bits, the more bit on all but the last, the link and the message words |
| `TxRing.FailedFrameIsUnmapped` | cascade/files/drivers/net/ethernet/airoha/arht_dp_api.c:1115-1173 | after a DMA failure at fragment k the count, CPU index, all mappings and every other entry are as before, and the free list is rotated by k |
| `TxRing.EnqueueOutcome` | cascade/files/drivers/net/ethernet/airoha/arht_dp_api.c:1100-1183 | sent exactly when it fits and every fragment maps; busy exactly when it does not fit and the path is not the fast one; the queue is stopped exactly then or below its threshold |
| `TxRing.UnwoundMaps` | cascade/files/drivers/net/ethernet/airoha/arht_dp_api.c:1165-1173 | the unwind loop undoes the mapping of each moved entry exactly once |
| `TxRing.PlacedMaps` | cascade/files/drivers/net/ethernet/airoha/arht_dp_api.c:1113-1148 | k fragments add exactly one mapping for each of the k entries filled |
| `TxRing.Ring.Send` | cascade/files/drivers/net/ethernet/airoha/arht_dp_api.c:1100-1183 | space check, mapping loop and unwind compute the specified enqueue |
| `TxRing.Ring.MapAll` | cascade/files/drivers/net/ethernet/airoha/arht_dp_api.c:1109-1148 | the mapping loop: entries taken from the list head in turn up to the first failure |
| `TxRing.Ring.Unmap` | cascade/files/drivers/net/ethernet/airoha/arht_dp_api.c:1165-1173 | the unwind loop computes the specified unwinding |
| `TxRing.Ring.Finish` | cascade/files/drivers/net/ethernet/airoha/arht_dp_api.c:1150-1161 | the count, CPU index and stop threshold afterwards |
| `TxRingRuns.RingsAreAccountedFor` | cascade/files/drivers/net/ethernet/airoha/arht_dp_api.c:1100-1183 | after any run of sends and completions the free list has ndesc - queued entries, is never empty, every entry is free or in flight but not both, and the mappings are those of the entries in flight |
| `TxRingRuns.ChainedUnlessFailsLate` | cascade/files/drivers/net/ethernet/airoha/arht_dp_api.c:1100-1173 | from a ring whose descriptors in flight form one chain to the list head, with the CPU index on it, a step of either kind of send (kicked or batched) or an in-order completion keeps that if and only if it is not a mapping failure after the first fragment |
| `TxRingRuns.LateFailureBreaksChain` | cascade/files/drivers/net/ethernet/airoha/arht_dp_api.c:1115-1173 | a run on a ring of four: a packet in flight, then one whose second fragment fails, after which the chain ends one entry before the list head |
| `TxRingRuns.KickAnnouncesAll` | cascade/files/drivers/net/ethernet/airoha/arht_dp_api.c:1150-1158 | after a send with a kick the CPU index is at the list head, behind everything in flight |
| `TxRingRuns.RunsStayChained` | cascade/files/drivers/net/ethernet/airoha/arht_dp_api.c:1100-1173 | runs without such failures, batched sends included, with completions in order of what was announced, keep one chain |
| `TxRingRuns.SendKeepsInv` | cascade/files/drivers/net/ethernet/airoha/arht_dp_api.c:1100-1183 | sending, refusing and failing keep entries and mappings accounted for |
| `TxRingRuns.CompleteKeepsInv` | cascade/files/drivers/net/ethernet/airoha/arht_dp_api.c:1100-1183 | so does a completion, in any order, that unmaps an entry and appends it to the list |
| `PhyIpc.StepKeepsStep` | cascade/files/drivers/net/ethernet/airoha/arht_hsgmii.c:1324-1396 | host and firmware stay in step on every event except a poll that takes an ERROR status with the old parity, and that one always breaks it |
| `PhyIpc.AnswerBelongsToCommand` | cascade/files/drivers/net/ethernet/airoha/arht_hsgmii.c:1376-1385 | a wait ends with its own command's answer if and only if the status is not such a stale ERROR; a SUCCESS never is |
| `PhyIpc.EachServicedOnce` | cascade/files/drivers/net/ethernet/airoha/arht_hsgmii.c:1324-1396 | while the firmware reports no error, after any run every command waited for has been serviced exactly once and in order |
| `PhyIpc.RunKeepsStep` | cascade/files/drivers/net/ethernet/airoha/arht_hsgmii.c:1324-1396 | every run whose polls take no stale ERROR stays in step |
| `PhyIpc.SyncGetsInStep` | cascade/files/drivers/net/ethernet/airoha/arht_hsgmii.c:1398-1434 | from any firmware parity: whenever the sync loop can stop the ends are in step, if and only if no command whose parity is still to change against the second NOOP is under way when that is written |
| `PhyIpc.AfterSyncEachServicedOnce` | cascade/files/drivers/net/ethernet/airoha/arht_hsgmii.c:1324-1434 | from any firmware parity, through the sync, over any later run without firmware errors: every command sent after the sync and waited for is serviced exactly once, in order |
| `PhyIpc.StaleErrorLosesCommands` | cascade/files/drivers/net/ethernet/airoha/arht_hsgmii.c:1383-1385 | a run in which the early stop on ERROR leaves two commands never serviced |
| `PhyIpc.LateNoopFoolsSync` | cascade/files/drivers/net/ethernet/airoha/arht_hsgmii.c:1406-1427 | a run in which a slow first NOOP makes the sync end at once and a later command take its answer |
| `PhyIpc.ParseSts` | cascade/files/drivers/net/ethernet/airoha/arht_hsgmii.c:1246-1270 | every 16-bit word is the packing of the fields parsed from it |
| `PhyIpc.ParsePack` | cascade/files/drivers/net/ethernet/airoha/arht_hsgmii.c:1246-1270 | parsing a packed status gives its fields back |
| `PhyIpc.StsFields` | cascade/files/drivers/net/ethernet/airoha/arht_hsgmii.c:1246-1270 | which bits of the status word each field is |
| `PhyIpc.CmdFields` | cascade/files/drivers/net/ethernet/airoha/arht_hsgmii.c:1324-1347 | the command word has parity, size and opcode where the layout puts them and clear reserved bits, for any signed arguments |
| `PhyIpc.Host.BuildCmd` | cascade/files/drivers/net/ethernet/airoha/arht_hsgmii.c:1324-1347 | the word for the current number; the next number has the other parity, across the 32-bit wrap too |
| `PhyIpc.Host.WaitCmdDone` | cascade/files/drivers/net/ethernet/airoha/arht_hsgmii.c:1349-1396 | returns the first polled status that is an ERROR, or a SUCCESS with the other parity than the counter's, or the last one read before the timeout |
| `PhyIpc.Host.SyncParity` | cascade/files/drivers/net/ethernet/airoha/arht_hsgmii.c:1398-1434 | two NOOPs of opposite parity, and success exactly when a status with the second's parity is read |
| `BucketShift.SearchIsLeastShift` | cascade/files/drivers/net/ethernet/airoha/arht_qdma.c:61-91 | the recursive search terminates and equals a linear scan for the least shift that suffices, or the upper bound |
| `BucketShift.BucketFits` | cascade/files/drivers/net/ethernet/airoha/arht_qdma.c:61-91 | the bucket is large enough whenever the shift is below its bound or the largest one suffices, and under twice the request above one unit |
| `BucketShift.XsiSearchIsLeastShift` | cascade/files/drivers/net/ethernet/airoha/arht_hsgmii.c:2895-2921 | the XSI search is the same scan except at value = unit, where it answers 1 instead of 0 |
| `BucketShift.ZeroGetsOne` | cascade/files/drivers/net/ethernet/airoha/arht_qdma.c:61-91 | both searches answer 1 for value 0 |
| `TokenRate.WordIsRatePerTick` | cascade/files/drivers/net/ethernet/airoha/arht_qdma.c:1212-1237 | the register word in tokens and time: per tick it stands for the rate to within a 64th, and not above it when the tick divides; refused exactly for ticks longer than a unit and rates over 0x3FFFF units; in packet mode from 16 microseconds on |
| `TokenRate.PacketUnitFits` | cascade/files/drivers/net/ethernet/airoha/arht_qdma.c:1217-1224 | the packet unit fits its 16 bits if and only if the tick is 16 microseconds or more |
| `TokenRate.ShortTickWraps` | cascade/files/drivers/net/ethernet/airoha/arht_qdma.c:1217-1224 | at 15 microseconds a rate under one packet a tick is programmed as almost 59 |
| `TokenRate.BucketSizes` | cascade/files/drivers/net/ethernet/airoha/arht_qdma.c:1240-1259 | the bucket size asked for, as time at the rate |
| `TokenRate.BucketSizeSteps` | cascade/files/drivers/net/ethernet/airoha/arht_qdma.c:539-570 | a larger ingress rate never gets a smaller bucket, and the steps |
| `TokenRate.DecodeEncode` | cascade/files/drivers/net/ethernet/airoha/arht_qdma.c:1195-1237 | reading an accepted rate back loses at most a 64th of the unit, rounded up, and never gains |
| `TokenRate.EncodeAccepts` | cascade/files/drivers/net/ethernet/airoha/arht_qdma.c:1212-1237 | a rate is refused exactly when the tick gives no unit or the rate is over 0x3FFFF units; otherwise the word is 64 times the rate divided by the unit |
| `TokenRate.EncodeIsMonotone` | cascade/files/drivers/net/ethernet/airoha/arht_qdma.c:1226-1237 | a larger rate never gets a smaller word |
| `TokenRate.BucketHoldsATick` | cascade/files/drivers/net/ethernet/airoha/arht_qdma.c:1158-1259 | for each of the four meters, in byte and in packet mode, the bucket programmed for an accepted rate holds what one tick adds, and is under twice the size asked for when that is over one unit; only an ingress packet rate can ask for a bucket that is refused |
| `TxQos.WeightedQueues` | cascade/files/drivers/net/ethernet/airoha/arht_qdma.c:404-423 | which queues are weighted: all 8 in mode 0, none in mode 1, the lowest 9 - m in mode m from 2 to 7 |
| `TxQos.ClosedIsBit` | cascade/files/drivers/net/ethernet/airoha/arht_qdma.c:295-343 | where a queue's bit is in the shadow words |
| `TxQos.ModeIsField` | cascade/files/drivers/net/ethernet/airoha/arht_qdma.c:345-370 | where a channel's mode is in the mode words, and that setting it changes no other bit |
| `TxQos.SetReturns` | cascade/files/drivers/net/ethernet/airoha/arht_qdma.c:396-442 | a channel or mode out of range is refused with nothing changed, else the caller's zero weights come back as ones; the errors of set and get |
| `TxQos.ReadAfterToggle` | cascade/files/drivers/net/ethernet/airoha/arht_qdma.c:456-488 | a queue closed or opened by itself changes what is read for it alone, and only when its weight is 1 |
| `TxQos.SetThenGet` | cascade/files/drivers/net/ethernet/airoha/arht_qdma.c:396-488 | when no access times out, reading back gives the mode, and the weight (at least 1 for a queue that is not weighted) if and only if it fits 8 bits |
| `TxQos.Weight256ReadsZero` | cascade/files/drivers/net/ethernet/airoha/arht_qdma.c:396-488 | from any state a channel set to weights of 256 reads back zeros, although its queues are open |
| `TxQos.SetKeepsOthers` | cascade/files/drivers/net/ethernet/airoha/arht_qdma.c:396-488 | setting one channel, timeout or not, changes no mode, weight or closed queue of another |
| `TxQos.CloseInsertsOpenRemoves` | cascade/files/drivers/net/ethernet/airoha/arht_qdma.c:295-343 | on the shadow words closing is insertion and opening is removal in the set of closed (channel, queue) pairs |
| `TxQos.QueueAfterSet` | cascade/files/drivers/net/ethernet/airoha/arht_qdma.c:396-442 | after a set exactly the weighted queues of weight 0 (mode 0, or mode m from 2 on and queue under 9 - m) are closed on that channel, even when it fails with ETIME; the weights up to the timeout are written, the mode only when there is none |
| `TxQos.Qdma.SetQueue` | cascade/files/drivers/net/ethernet/airoha/arht_qdma.c:295-327 | the shadow word and the register it shadows change in one bit, or nothing for a channel out of range |
| `TxQos.Qdma.SetTxQos` | cascade/files/drivers/net/ethernet/airoha/arht_qdma.c:396-442 | computes the specified set, the caller's weights included, or EINVAL, or ETIME at the first access that times out |
| `TxQos.Qdma.SetScheduler` | cascade/files/drivers/net/ethernet/airoha/arht_qdma.c:345-370 | the weight writes up to the first timeout, and the mode field of the channel when there is none |
| `TxQos.Qdma.GetTxQos` | cascade/files/drivers/net/ethernet/airoha/arht_qdma.c:456-488 | computes the specified get, or EINVAL, or EFAULT when a read times out |

## Left out

- FitDedup.Dedup: outside well-formed blobs (blocks in order and not overlapping the header, a complete walk, names inside the strings block) with no accessor of alias in front of its `data`, it says when nothing is written and what holds of a file that is, but not which bytes that file has; command-line arguments and file reading and writing are not modelled, and names are their UTF-8 bytes.
- Python's decoding errors, index errors and struct errors are distinct failures, but the messages are not modelled.
- Time is an unbounded counter: jiffies wrap-around in the expiry comparisons is not modelled.
- wifi_lo: the application list, packet parsing, the source MAC choice and module exit; setting the IS_WIFI flag is one step with the publish; a hash chain is searched in one step.
- WifiLoRuns.NothingLeaksIffPublishesInTime: a locked body is one step, the timer's where it takes lo->dev (line 518) and the add's where it clears it (line 867), so "live" in this row is not the VALID bit: that bit is still set for a moment after the one and not yet set for a moment after the other, and a test of it before the publish would not close the leak.
- WifiLoTable.Sessions.AddEty: the LRO field this module saves at line 883 and restores at lines 804-808 is not modelled; saving and restoring that field is modelled for dynamic_ifc.
- WifiLoRuns.MarksAreSafe: speaks of the module's own reference on the socket; whether anything else keeps the socket alive is outside the module.
- DynamicIfc.Driver.HandleLocalOut: the packet's header and its transmission after the lock is released are not modelled.
- DynamicIfc.Driver.CleanupAllSessions: is the second locked pass; the first, which stops the timers, is DynamicIfc.Driver.MarkTimers.
- dynamic_ifc: the application list, packet header construction, statistics, the agg-num of other modules (any other writer of the field is one kind of step); enabling is one step, and the hardware hook's answer is a parameter.
- ShrinkTable.RunStaysSafe: at most one change of a given row is under way at a time, and a port's MAC row is below 16. Update memory takes a word as its control register is written: the acknowledge bit, for which a lookup waits up to a timeout and a MAC change does not wait at all, is not modelled. Which ports change their MAC is decided outside the modelled files (`UpdateShrinkTable` is also installed as an operation for them), so a change may name any row.
- ShrinkTable: that a bound flow keeps its slot is not claimed, because the lookup expires slots without looking at the bitmap and the sweep may drop bound users.
- TxRing: netdev byte counters, checksum and segmentation flags, and freeing of the packet; message words are opaque. Completion is not in this repository: it is taken to unmap an entry and append it to the tail of the list, and in the chain theorems to come in order and only for entries the hardware has been told of.
- PhyIpc: delays, clocks and the timeout branches of the wait loops in runs; several PHYs sharing one command counter; the data registers.
- BucketShift: units for which unit << hi leaves 32 bits; none is configured.
- TokenRate: tick and mode are taken as the same when setting and reading, because the getter reads them through another index layout.
- TxQos: one QDMA; the shadow words are shared by both in the code.
- `airoha_get_free_lro_ring`, multicast handling, FOE entry construction, debugfs and proc output, MDIO, LED and sound drivers and register headers: plumbing, or facts about one branch.
