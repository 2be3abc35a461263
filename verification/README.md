# Proofs about sitesolide

A Dafny model of the parts of sitesolide where a mistake is hard to see in any
one function: a lock several machines contend for with shell scripts, the
deployments that run under it, the certificate decisions, the archive writer,
the DNS planners, and the texts that must read back.

    dafny verify dfyconfig.toml

## What is modelled

**The Caddy lock** (`LockLines`, `LockProtocol`, `LockWithoutTakeover`,
`LockRemoval`, `LockWindow`, `LockAnswers`). The machine is a state: the lock
directory if there is one, what each script has set aside, the clock. Each
script is a program counter over its file-system steps, and any number of them
interleave. Exclusion across takeovers rests on assumptions that are stated as
predicates on the run: nothing is put in the lock’s place while another script
has set aside the directory of a live claim, holder lines are distinct, and a
take touches the lock it made within fifteen minutes of its own mkdir or never.
A claim is a take not yet answered, or a holder, of less than fifteen minutes.
A take may be killed on the way, and its write may fail with the lock in place;
a holder may outlive fifteen minutes: the theorem then no longer speaks of it,
and its lock may be taken over. `[ -e d ] || mv e d` is one step. `LockWindow`
shows that the first assumption cannot be spared beside a live holder, and that
together they leave takeovers possible, of expired holders and of abandoned
takes; in a run without takeovers none is needed. `LockRemoval` says how long a
lock directory lasts and how each removal of one may end, with no assumption.

**Deployments under the lock** (`Ports`, `Deployments`). A deployment chooses
its port on an old reading, takes the lock, reads again, then deposits or
refuses; the lock’s own steps are the ones above, so that the theorems compose.
What a process does under the lock it is taken to do within fifteen minutes of
its take.

**The process that holds it** (`Session`). The module variables and the
handlers are a class; a state machine over the same steps carries the theorems
about whole runs.

**The certificate decisions** (`CachedFiles`, `ZoneNames`, `Zone`, `ZoneRuns`,
`ZoneAllowed`, `DomainNames`, `DomainTable`, `DomainDecisions`). The clock is a
parameter of every call, and so is each file as it stands when it may be read.

**The archive writer** (`Utf8`, `Pax`, `TarFormat`, `TarArchive`,
`TarWriter`). The specification is a reader, written from the ustar Interchange
Format and pax Header Block parts of the pax utility in IEEE Std 1003.1.

**The DNS planners** (`DnsZone`, `DnsPlans`, `DnsTheorems`, `DnsConflicts`,
`DnsReconcile`). A zone is a map from ids to records. What makes two addresses
the same is the equality of an arbitrary function’s results. Actions are applied
in the order they are sent: deletions, then updates, then creations.

**Snapshot names** (`Calendar`, `CompactTimes`, `Snapshots`), **the
preview-lock fragment** (`Codes`, `Stanzas`, `StanzaDoors`, `Fragment`,
`FragmentReads`) and **the directive comparison** (`JsonArrays`, `Comparison`, `Blocks`).

## Where the code is not quite what is said of it

- `bin/cli/comparison.ts:54-59` says no line can forge a group’s key by carrying
  a separator. A plain line that is itself the JSON text of the group’s lines
  still does (`Comparison.ForgedExample`), and nothing else does
  (`Comparison.SameExactlyWhenItemsAgree`).
- `bin/cli/caddy-lock.ts:193-196` says a removal never erases somebody else’s
  lock. It does when another lock is in place at its put-back step, and then only
  (`LockRemoval.RemovalEndsOneWay`); the lock erased may be one that is held
  (`LockWindow.ATakeoverErasesAHeldLock`).
- `bin/sitesolide.ts:619-624` says the lock is released by the exit event after
  a second interruption too. It is not when the answer that grants it is still
  on its way (`Session.SecondInterruptionLosesALock`), and only then
  (`Session.LockLostExactlyWhen`).
- `api/src/zone.ts:145-148` handles a list never read at that point. There is
  always one by then (`ZoneRuns.ThirdReadingNeverMade`).
- A domain `api/src/table.ts:43-49` accepts, or the www form made of it, may be
  all numbers or longer than 253 characters: it is written in the table but no
  host ever normalizes to it, so it is never allowed (`DomainNames.FormNormalizes`,
  `DomainNames.NumbersMayBeDeclared`, `DomainNames.LongDomainsMayBeDeclared`).
- `bin/cli/backups.ts:233-240` refuses the texts it prints itself for the years
  0000 to 0099 (`CompactTimes.OldYearsDoNotReadBack`).

## Model

| member | source | states |
|---|---|---|
| `LockLines.LineReadsBack` | bin/cli/caddy-lock.ts:103-111 | every holder line the scripts write reads back as its holder |
| `LockLines.AcceptedLineIsPlain` | bin/cli/caddy-lock.ts:94-111 | any text read as a holder names one whose own line reads back, and that line has only lower-case letters, digits, dashes and spaces |
| `LockLines.LineIdentifies` | bin/cli/caddy-lock.ts:109-111 | comparing lines, which is all the scripts do, compares holders |
| `LockProtocol.MutualExclusion` | bin/cli/caddy-lock.ts:153-244 | in every interleaving of any number of takes, takeovers and hand backs, a process answered TAKEN that has neither begun to hand back nor passed fifteen minutes is the only one, and its directory still exists with its line; given distinct holder lines, takes that write in the lock they made within fifteen minutes of their mkdir or never, killed on the way or not, and no mkdir or put-back succeeding while another script has the directory of such a process, or of a take not yet answered, set aside |
| `LockProtocol.RunKeepsInv` | bin/cli/caddy-lock.ts:153-244 | the invariant every step of every script keeps, failed writes included: at most one live claim, its directory in place or about to be put back, and nothing in place while it is aside |
| `LockProtocol.MoveAsideKeepsClaims` | bin/cli/caddy-lock.ts:199-207 | the rename of a lock in place keeps every claim: what is moved as expected is nobody’s, what is moved as unexpected stays restorable |
| `LockProtocol.PutBackKeepsClaims` | bin/cli/caddy-lock.ts:199-207 | a put-back keeps every claim, and finds the place empty whenever the directory is a claim’s |
| `LockProtocol.LockInPlaceIsMine` | bin/cli/caddy-lock.ts:153-173 | while a claim lives, a lock in place can only be its own directory |
| `LockProtocol.NoMkdirInWindowSuffices` | bin/cli/caddy-lock.ts:187-228 | the assumption on what is put in place is met, in any run, when no mkdir succeeds while any lock is set aside that was not expected |
| `LockWithoutTakeover.MutualExclusionWithoutTakeover` | bin/cli/caddy-lock.ts:153-173 | in a run without takeovers exclusion needs no assumption on interleaving and no time limit |
| `LockWithoutTakeover.HandBackFindsItsOwn` | bin/cli/caddy-lock.ts:232-244 | and every hand back of such a run finds its own directory, and never has to put one back; a take whose write fails cleans up its own |
| `LockRemoval.ErasesOnlyWhatItExpected` | bin/cli/caddy-lock.ts:187-244 | whatever other processes do in between, a removal erases another directory than the one it expected only if a lock stood in place at its put-back step |
| `LockRemoval.RemovalEndsOneWay` | bin/cli/caddy-lock.ts:187-244 | however the others interleave, a takeover’s or a hand back’s removal ends in exactly one of four ways since its first condition: it moved nothing and changed nothing; it erased the directory it had moved aside, which was the one expected; it put that very directory back; its put-back found another lock in place |
| `LockRemoval.LastsUntilErased` | bin/cli/caddy-lock.ts:153-207 | in any run a directory a take made is in place or with one script until the one step that erases it, and is nowhere after |
| `LockRemoval.PutBackRestores` | bin/cli/caddy-lock.ts:199-207 | in any run, with nothing in place at its put-back, what is back is the directory the script itself moved from there, untouched since |
| `LockRemoval.FailedCheckChangesNothing` | bin/cli/caddy-lock.ts:199-207 | in any run, a script whose first condition fails has changed nothing on the machine by any of its steps |
| `LockRemoval.AsideIsPrivate` | bin/cli/caddy-lock.ts:199-207 | in any run, what a script has aside is the directory it moved there, untouched by every step of every other since |
| `LockWindow.MkdirInTheWindowBreaksExclusion` | bin/cli/caddy-lock.ts:187-228 | a run that meets every assumption but that one ends with two processes holding the lock |
| `LockWindow.MkdirMakesTwoHolders` | bin/cli/caddy-lock.ts:153-207 | and no state can spare it: from any in which a live holder’s directory is set aside, a mkdir and the two steps after it give two processes answered TAKEN |
| `LockWindow.PutBackLosesALock` | bin/cli/caddy-lock.ts:199-207 | nor for put-backs: from any such state another script’s put-back, then that of the script that has the directory, leave the holder’s directory nowhere |
| `LockWindow.ATakeoverErasesAHeldLock` | bin/cli/caddy-lock.ts:193-207 | a run in which a takeover’s last step erases the directory of a process that holds the lock |
| `LockWindow.TakeoverWithinTheAssumptions` | bin/cli/caddy-lock.ts:218-228 | all the assumptions together leave takeovers possible: a run that meets them ends with a lock taken over from a holder that outlived fifteen minutes |
| `LockWindow.AbandonedTakeIsTakenOver` | bin/cli/caddy-lock.ts:187-228 | and takeovers of abandoned takes: in a run that meets them, a take killed between its mkdir and its holder line is taken over once its directory is fifteen minutes old |
| `LockAnswers.ReadTakeAnswer` | bin/cli/caddy-lock.ts:297-328 | the reading of an answer with its loop over blank last lines equals the specification function the lemmas below are about |
| `LockAnswers.TakenReadsBack` | bin/cli/caddy-lock.ts:153-173 | the answer of a take that succeeded is read as a take of exactly that line, and only in its own name |
| `LockAnswers.HeldReadsBack` | bin/cli/caddy-lock.ts:153-173 | whatever the holder file contains, marker look-alikes included, a held answer gives back the time, the age mark and the content |
| `LockAnswers.TakeoverDecidedExactlyWhenStale` | bin/cli/caddy-lock.ts:349-375 | a takeover is decided exactly when the readable line is more than fifteen minutes old, or the unreadable holder’s directory is |
| `LockAnswers.WonOnlyWhenAnswered` | bin/cli/caddy-lock.ts:297-375 | a take is believed only on an answer of exactly that take |
| `LockAnswers.TakeoverIsEnabled` | bin/cli/caddy-lock.ts:349-375 | a takeover the workstation launches is one the protocol’s state machine allows: the line it names had expired |
| `LockAnswers.TakeLock` | bin/cli/caddy-lock.ts:447-467 | one take and at most one takeover: what is acquired is exactly what an answer said, and the second command is sent exactly when the first answer was stale |
| `Ports.TakenPorts` | bin/cli/ports.ts:59-72 | the port to keep, or every port another manifest or the platform claims |
| `Ports.LowestFree` | bin/cli/ports.ts:72-79 | the least port of a block that is not taken, or none when all are |
| `Ports.ChoosePort` | bin/cli/ports.ts:59-79 | a kept port is the one the machine gives; a chosen one is the lowest of the blocks that nothing claims; full only when all are claimed |
| `Ports.ClearDepositKeepsDisjoint` | bin/sitesolide.ts:1598-1632 | depositing a manifest without port conflict keeps all ports pairwise disjoint |
| `Ports.DisjointAfterDepositMeansClear` | bin/sitesolide.ts:1598-1632 | and only such a manifest: the check refuses nothing it could have let through |
| `Ports.ReservedMeans` | bin/cli/services.ts:23-90 | a manifest is clear exactly when no other declares one of its ports, it is not on 3000 or 3001, and not on 3022 or 3026 unless it is the dashboard or the portal |
| `Deployments.PortsStayDisjoint` | bin/sitesolide.ts:1368-1429 | in every interleaving of deployments, removals and door changes, down to the steps of their lock scripts, deposited manifests keep disjoint, unreserved ports although each port was chosen on an old reading |
| `Deployments.DepositMeetsItsReading` | bin/sitesolide.ts:1368-1383 | when a deployment deposits it alone holds the lock, and the machine carries for its slug exactly what was re-read: no other door is overwritten |
| `Deployments.DoorsChangeOnlyUnderTheLock` | bin/sitesolide.ts:1598-1632 | a deposited site’s door changes or goes only by a door change or a removal of a process that holds the lock |
| `Deployments.OneSiteAtATime` | bin/sitesolide.ts:1368-1429 | in every run each action changes at most the one site it is about: a deposit leaves the manifest prepared, a removal nothing, a door change only the door |
| `Deployments.ADeploymentDeposits` | bin/sitesolide.ts:1368-1383 | the assumptions leave deployments possible: any manifest without conflict is deposited at the end of some run that meets them all |
| `Session.LockLostExactlyWhen` | bin/sitesolide.ts:547-642 | in every run, whatever the interruptions, a process that has exited failed to hand back a grant exactly when its last step was an interruption with a granted answer on its way and another interruption pending |
| `Session.HandedBackButWhatIsOnItsWay` | bin/sitesolide.ts:547-642 | in every run no line is handed back that was not granted, nor twice, and at the exit each grant has been handed back once but the one on its way |
| `Session.EveryGrantHandedBack` | bin/sitesolide.ts:547-642 | so with at most one interruption, wherever it falls, a granted line is handed back by exactly one command for that line before the process exits |
| `Session.CutShortExactlyWhen` | bin/sitesolide.ts:625-719 | in every run a counted command has been cut short exactly when the last step is an interruption that falls on one before the handlers are armed, or while another is pending |
| `Session.NothingCutShort` | bin/sitesolide.ts:625-719 | so with at most one interruption none is, once the first take has armed the handlers |
| `Session.SecondInterruptionLosesALock` | bin/sitesolide.ts:625-634 | and the condition is met: a run of two interruptions in which a granted answer on its way is handed back by nobody |
| `Session.TakeEndsHeldOrExited` | bin/sitesolide.ts:582-595 | in every run, once a take has its answer, the process holds exactly the line granted, or has exited: with a failure when nothing was granted, and otherwise only for an interruption, the line handed back |
| `Session.ComesBackOnlyGranted` | bin/sitesolide.ts:582-595 | in every run a process that has not exited and waits for no take was granted every take it began, and holds the line granted last until it hands it back |
| `Session.HandBackHandsBack` | bin/sitesolide.ts:547-573 | a hand back is of the line held, once, and of nothing when none is |
| `Session.HowItEnds` | bin/sitesolide.ts:547-719 | in every run the process exits on exactly five kinds of step, each with its own code, and an interruption that does not end it is remembered and changes nothing else |
| `Session.ExitSettles` | bin/sitesolide.ts:547-573 | leaving hands back what is held, not what is on its way, and cuts a command short exactly when one was running |
| `Session.Process.ReleaseCaddyLock` | bin/sitesolide.ts:547-573 | forgets the line and sends its release, or does nothing when none is held: the state machine’s step |
| `Session.Process.Interrupt` | bin/sitesolide.ts:625-634 | the handler’s two branches, as the state machine’s step |
| `Session.Process.TakeAnswered` | bin/sitesolide.ts:582-595 | the answer kept before anything else can run, then the pending interruption honoured |
| `Pax.RecordLength` | bin/cli/bundle.ts:84-90 | the loop ends for every body, on the least length that counts its own digits |
| `Pax.TwoLengthsCountThemselves` | bin/cli/bundle.ts:84-90 | the least is not the only one: a body of 97 bytes has 99 and 100 |
| `Pax.RecordReadsBack` | bin/cli/bundle.ts:84-90 | whatever follows, the record’s prefix delimits it exactly and the key and value read back, any character in the value included |
| `Pax.PaxRecord` | bin/cli/bundle.ts:84-90 | the method returns the record of that least length |
| `TarArchive.OctalReadsBack` | bin/cli/bundle.ts:37-41 | and reads back, whatever stands after its NUL |
| `TarArchive.HeaderPassesChecksum` | bin/cli/bundle.ts:53-72 | every header passes its own checksum |
| `TarArchive.HeaderReadsBack` | bin/cli/bundle.ts:53-72 | name up to its first NUL, mode, size, time and type read back |
| `TarArchive.PathRecoveredExactly` | bin/cli/bundle.ts:93-111 | a path comes back as given, a directory’s without trailing slashes, exactly when it is too long for the field or holds no NUL |
| `TarArchive.ArchiveIsWholeBlocks` | bin/cli/bundle.ts:114-125 | an archive is a whole number of 512-byte blocks |
| `TarArchive.ArchiveReadsBack` | bin/cli/bundle.ts:93-125 | a reader written from the ustar and pax formats recovers exactly the list of entries, in order: kind, path, time, permissions, content |
| `TarArchive.EntryHeaderFields` | bin/cli/bundle.ts:53-111 | the header of an entry carries, in the format’s own characters, 0755 for a directory or an executable and 0644 for another file, its type, the magic and version, and root as owner |
| `TarArchive.SecondsAre` | bin/cli/bundle.ts:37-41 | a time is written as the second it falls in, and one before 1970 as zero |
| `TarArchive.FallbackNameAt` | bin/cli/bundle.ts:96-102 | the name left to a reader that ignores extended headers is the path’s first ninety characters, those past ASCII underscored |
| `TarWriter.Put` | bin/cli/bundle.ts:43-50 | a text written in place at an offset, everything else as it was; refused when it does not fit its field |
| `TarWriter.SumOf` | bin/cli/bundle.ts:66-70 | the loop’s sum of a block’s bytes |
| `TarWriter.WriteHeader` | bin/cli/bundle.ts:53-72 | the buffer filled in place is exactly the specification’s header; none when a field does not fit |
| `TarWriter.Pad` | bin/cli/bundle.ts:75-81 | data padded to a whole number of blocks, unchanged when it is one |
| `TarWriter.EntryBlocks` | bin/cli/bundle.ts:93-111 | the blocks pushed for one entry are the specification’s bytes; none when a number does not fit |
| `TarWriter.WriteArchive` | bin/cli/bundle.ts:114-125 | the whole buffer, or none when some number does not fit: its bytes are the archive, end in two zero blocks, and read back as the entries |
| `DnsZone.NeverClashes` | bin/cli/dns/dns.ts:145-147 | between any two actions sent, in the order deletions, updates, creations, no CNAME stands beside an address record at a name if none did before |
| `DnsZone.SettledMeetsGoals` | bin/cli/cloudflare.ts:204-255 | any plan that settles its slots of a listing, once applied, leaves exactly the record wanted at each, or none |
| `DnsZone.SettledTouchesNothingElse` | bin/cli/cloudflare.ts:204-255 | and every record at any other slot stands as it was, none appearing there |
| `DnsZone.SettlesTogether` | bin/cli/cloudflare.ts:204-255 | plans that settle different slots settle them all together |
| `DnsPlans.PlanRecordsSettles` | bin/cli/cloudflare.ts:204-255 | a conflict-free plan of addresses settles both names’ A, AAAA and CNAME |
| `DnsPlans.PlanTunnelSettles` | bin/cli/cloudflare.ts:270-292 | a conflict-free tunnel plan settles the same slots for one proxied alias each |
| `DnsTheorems.MachinePlanMeets` | bin/cli/cloudflare.ts:166-255 | applied, it leaves at the zone and its wildcard exactly the machine’s addresses, unproxied, and no alias, with or without `replace` |
| `DnsTheorems.MachinePlanTouchesNothingElse` | bin/cli/cloudflare.ts:204-255 | and leaves every other record of the zone as it was |
| `DnsTheorems.MachinePlanNeverClashes` | bin/cli/dns/dns.ts:145-147 | and never puts an alias beside an address on the way |
| `DnsTheorems.MachinePlanTwice` | bin/cli/cloudflare.ts:204-255 | planned again on any listing of the result, every action is to keep |
| `DnsTheorems.MachinePlanWithoutReplace` | bin/cli/cloudflare.ts:208-253 | without `replace` it updates nothing and deletes only records that already carry the machine’s address |
| `DnsTheorems.MachineDeletesOnlyDuplicates` | bin/cli/cloudflare.ts:223-253 | and each is a duplicate at the zone or its wildcard: another record of the same slot and address is kept, or reported, and not deleted |
| `DnsTheorems.RecordListedTwiceIsDeleted` | bin/cli/cloudflare.ts:223-253 | given any listing, with or without `replace`, the plan deletes a record it keeps or updates exactly when the listing holds that record twice |
| `DnsTheorems.MachinePlanWithReplace` | bin/cli/cloudflare.ts:204-255 | with `replace` it never reports a conflict |
| `DnsTheorems.MachineConflictsExactly` | bin/cli/cloudflare.ts:208-248 | without `replace` it is refused exactly when something else stands at a name: an alias, another address, an IPv6 one where there may be none, or a proxied first record |
| `DnsConflicts.MachineReportsExactly` | bin/cli/cloudflare.ts:208-248 | for any listing, the records reported as conflicts without `replace` are exactly those at the two names that are an alias, an IPv6 address where none is wanted, another address, or the first record of a slot all right when it is proxied |
| `DnsTheorems.TunnelPlanMeets` | bin/cli/cloudflare.ts:270-292 | a tunnel’s plan leaves at both names one proxied alias to the tunnel and no address |
| `DnsTheorems.TunnelPlanTouchesNothingElse` | bin/cli/cloudflare.ts:270-292 | and nothing else changed |
| `DnsTheorems.TunnelPlanNeverClashes` | bin/cli/dns/dns.ts:170-172 | nor clashed on the way |
| `DnsTheorems.TunnelPlanTwice` | bin/cli/cloudflare.ts:270-292 | and is stable: planned again, all is kept |
| `DnsTheorems.TunnelPlanWithoutReplace` | bin/cli/cloudflare.ts:272-290 | without `replace`, with at most one alias per name, it deletes nothing and updates only the tunnel’s own alias |
| `DnsTheorems.TunnelConflictsExactly` | bin/cli/cloudflare.ts:272-288 | and is refused exactly when an address stands at a name, or aliases none of which is the tunnel’s |
| `DnsConflicts.TunnelReportsExactly` | bin/cli/cloudflare.ts:270-292 | for any listing the tunnel’s are exactly the addresses at the two names, and the first alias of a name none of whose aliases is the tunnel’s |
| `DnsTheorems.TunnelPlanWithReplace` | bin/cli/cloudflare.ts:270-292 | with `replace` it never reports a conflict |
| `DnsReconcile.DrawRecords` | bin/cli/cloudflare.ts:204-255 | the nested loops push exactly the plan the lemmas are about |
| `DnsReconcile.DrawTunnel` | bin/cli/cloudflare.ts:270-292 | the same for the tunnel |
| `DnsReconcile.Send` | bin/cli/dns/dns.ts:145-147 | the three loops of calls change the provider’s zone exactly as the plan applied |
| `DnsReconcile.EnsureZoneRecords` | bin/cli/dns/dns.ts:128-149 | a plan with a conflict changes nothing; any other is applied whole |
| `DnsReconcile.EnsureTunnelRecords` | bin/cli/dns/dns.ts:157-174 | the same for the tunnel, a dry run changing nothing either |
| `CachedFiles.CachedFile.Get` | api/src/zone.ts:56-71 | the closure’s call: reads when due, keeps the last value on a failure, and remembers when it tried |
| `CachedFiles.ValueIsLastGoodReading` | api/src/zone.ts:51-74 | over any calls the value is the parse of the last reading that did not fail, or the absent value, and `read` says whether there was one |
| `CachedFiles.AttemptsApart` | api/src/zone.ts:57-57 | once a reading has succeeded, two attempts are at least the later call’s window apart |
| `CachedFiles.ValueIsFresh` | api/src/zone.ts:51-74 | what a call returns was tried then, or less than its window before |
| `CachedFiles.ReadsUntilItSucceeds` | api/src/zone.ts:57-57 | while readings fail every call goes to the disk |
| `ZoneNames.ShellKeepsLabels` | api/src/zone-names.ts:36-90 | the writer’s shell test keeps exactly the names the reader’s pattern accepts |
| `ZoneNames.ParseZoneNames` | api/src/zone-names.ts:44-52 | the loop’s set is the trimmed lines that are labels |
| `ZoneNames.ListReadsBack` | api/src/zone-names.ts:113-135 | a list written from any folder names, newlines in them included, reads back as exactly those that are labels |
| `ZoneNames.PolicyIsOnDemand` | api/src/zone-names.ts:28-30 | a policy is on demand exactly when one of its lines is that word, white space around it aside |
| `Zone.ZoneDecider.ListedNow` | api/src/zone.ts:124-128 | the list read through the cache, the first one read becoming what is known |
| `Zone.ZoneDecider.Prune` | api/src/zone.ts:150-150 | the filter keeps the times less than a window ago |
| `Zone.ZoneDecider.Admit` | api/src/zone.ts:149-164 | a listed label: known, or counted against the cap |
| `Zone.ZoneDecider.Decide` | api/src/zone.ts:131-166 | the whole decision and the whole new state, as the function the run lemmas are about |
| `ZoneRuns.KnownOnceRead` | api/src/zone.ts:117-128 | in every reachable state nothing is known exactly until the list is first read |
| `ZoneRuns.ThirdReadingNeverMade` | api/src/zone.ts:148-148 | so a listed label always meets a set of known names: that line never runs |
| `ZoneRuns.FirstListIsKnown` | api/src/zone.ts:124-128 | the list first read becomes, whole, what is known; with a second window above zero it is the list the question is answered from and counts for nothing, without it the label asked for may count as new |
| `ZoneRuns.KnownIsAllowed` | api/src/zone.ts:142-165 | a known label is allowed ever after exactly when it is listed under an on-demand policy, whatever the cap |
| `ZoneRuns.OnceAllowedStaysAllowed` | api/src/zone.ts:142-165 | a name once allowed is allowed at every later question while it is listed under an on-demand policy |
| `ZoneRuns.ListIsCached` | api/src/zone.ts:124-142 | the list in every reachable state is the cache of the readings the questions made |
| `ZoneRuns.OnlyListedAllowed` | api/src/zone.ts:131-166 | besides the zone and its www, only single labels of the last list read without failure are ever allowed |
| `ZoneRuns.KeptTimesAreTail` | api/src/zone.ts:149-161 | the times kept are the last of all the allowances, and those dropped are at least a window old, though pruned only when a new name comes |
| `ZoneRuns.CapPlusOneSpanAWindow` | api/src/zone.ts:149-163 | with a non-decreasing clock any cap + 1 consecutive names new to the zone take at least the window |
| `ZoneRuns.NoWindowHoldsMoreThanTheCap` | api/src/zone.ts:149-163 | so less than a window never holds more than the cap |
| `ZoneRuns.CapRefusesOnlyWhenReached` | api/src/zone.ts:149-159 | and no listed name is refused for the cap unless that many were let in less than a window ago |
| `ZoneRuns.RefusedOnlyOnAFreshList` | api/src/zone.ts:142-144 | a name is refused as no site’s only on a list tried at that very question, or less than the short window before |
| `ZoneRuns.CapSaidOnce` | api/src/zone.ts:152-158 | between two moments the cap is said, a new name was let in |
| `ZoneAllowed.AllowedExactlyWhen` | api/src/zone.ts:131-166 | in every run on a clock that does not go back, a site’s name is allowed exactly when the last policy read is on demand, it is a single label of the last list read, and it was in the first list read, or allowed before, or fewer names than the cap were let in less than a window ago; and it is counted as new exactly when it is allowed and neither listed first nor allowed before |
| `ZoneAllowed.AnswerByHistory` | api/src/zone.ts:131-166 | and the whole answer, with the reason of each refusal, is told by the readings made, the answers given and the times of the names let in |
| `ZoneAllowed.ZoneAndWwwAllowed` | api/src/zone.ts:132-136 | the zone and its www are always allowed, and exactly the names that are neither the zone nor under it are not decided here |
| `ZoneAllowed.KnownIs` | api/src/zone.ts:117-164 | in every reachable state what is known is the first list read without failure and the names let in since |
| `ZoneAllowed.CapSaidExactlyWhen` | api/src/zone.ts:152-163 | the cap is said exactly at the first refusal for it since a name was last let in |
| `DomainNames.FormNormalizes` | api/src/domains.ts:9-21 | a declared form is what a handshake for it is reduced to exactly when it has at most 253 characters and is not all numbers |
| `DomainNames.NumbersAreNeverAsked` | api/src/domains.ts:9-21 | a declared domain all in numbers is written in the table but no host normalizes to it |
| `DomainNames.NumbersMayBeDeclared` | api/src/table.ts:43-49 | and such a domain may be declared |
| `DomainNames.LongFormsAreNeverAsked` | api/src/domains.ts:9-21 | the www form of a declared domain of 250 characters or more is written in the table but no host normalizes to it |
| `DomainNames.LongDomainsMayBeDeclared` | api/src/table.ts:43-59 | and such a domain may be declared |
| `DomainNames.FormsOfValid` | api/src/table.ts:43-59 | every form of a valid domain is a plain dotted name |
| `DomainNames.NormalizedIsPlain` | api/src/domains.ts:9-21 | whatever is passed along, what comes out is a lower-case dotted name of at most 253 characters, no numeric address |
| `DomainNames.AskedAnyWay` | api/src/domains.ts:9-21 | a name asked for with white space, capitals, a final dot or a port is reduced to the name |
| `DomainNames.DomainOfLabels` | api/src/table.ts:43-49 | a name of labels of at most 63 characters is a domain exactly when there are two or more, 253 characters at most, and each passes the zone list’s own test |
| `DomainTable.ReadSite` | api/src/table.ts:75-117 | a site reads exactly when its manifest does and no declared name is wrong, and gives exactly the forms declared; otherwise the error is true of it |
| `DomainTable.BuildTable` | api/src/table.ts:120-139 | the build succeeds exactly when every folder reads and no domain has two claimants, and then gives each claimed domain its only claimant; the error of a build that fails is true of the folders it names |
| `DomainTable.OrderDoesNotMatter` | api/src/table.ts:120-139 | neither success nor failure depends on the order of the folders, whoever claims what, nor does the table of a build that succeeds |
| `DomainTable.TableHoldsWhatIsDeclared` | api/src/table.ts:96-139 | a domain is a key of the table, and a folder’s, exactly when that folder’s active manifest declares it, as its name or an alias, or is the www form of a two-label one declared so |
| `DomainTable.ReadsUnlessWrong` | api/src/table.ts:96-115 | a manifest that parses stops the build exactly when it is active and declares a text that spells no domain |
| `DomainTable.SpelledAnyWay` | api/src/table.ts:106-107 | white space, capitals and a final dot do not count in how a domain is declared |
| `DomainDecisions.TableReadsBack` | api/src/table.ts:142-148 | printed in any order, the table reads back as exactly its domains |
| `DomainDecisions.TableIsPrintable` | api/src/table.ts:120-148 | a table built from the sites is one that prints and reads back |
| `DomainDecisions.ParseDomainTable` | api/src/domains.ts:28-40 | the loop’s set is the keys of the lines |
| `DomainDecisions.Table.Decide` | api/src/domains.ts:73-90 | host, then zone, then table: the decision and the new state of all three caches |
| `DomainDecisions.AllowedWhenInTable` | api/src/domains.ts:73-90 | over any run, a host outside the zone is allowed exactly when the last table read without failure holds it |
| `DomainDecisions.AllowedWhenDeclared` | api/src/domains.ts:73-90 | and when that table was built from the sites and printed, exactly when some active manifest declares it |
| `Calendar.DayFromYearIsTheFormula` | bin/cli/backups.ts:225-230 | counting year lengths agrees with the closed form of section 21.4.1 of ECMA-262, which the date object follows |
| `Calendar.DateIsTheFormula` | bin/cli/backups.ts:225-230 | a day’s date is the one, and the only one, that the closed forms of its year and of its month give: five months counted from March are 153 days |
| `Calendar.FieldsNameTheirSecond` | bin/cli/backups.ts:225-240 | the calendar fields of any second name that second |
| `Calendar.FieldsKeepOrder` | bin/cli/backups.ts:225-230 | an earlier second has an earlier date, or the same date and an earlier time |
| `CompactTimes.CompactTimeReadsBack` | bin/cli/backups.ts:225-240 | a time reads back, floored to the second, exactly when its year is from 0100 to 9999 |
| `CompactTimes.CompactTimeNamesItsDate` | bin/cli/backups.ts:225-230 | in the years 0000 to 9999 the numbers of a time’s text are the date those closed forms give its day, and its time of the day |
| `CompactTimes.OldYearsDoNotReadBack` | bin/cli/backups.ts:237-239 | the years 0000 to 0099 are read as the twentieth century’s, and refused |
| `CompactTimes.AcceptedTextReprints` | bin/cli/backups.ts:233-240 | a text is accepted as a time exactly when it is that time’s own text, whole to the second, in those years |
| `CompactTimes.ReadingNeverThrows` | bin/cli/backups.ts:233-240 | no text of the shape names a time out of a date’s range |
| `Snapshots.TextOrderIsTimeOrder` | bin/cli/backups.ts:225-230 | sorted as text, compact times of the years 0000 to 9999 are sorted by time |
| `Snapshots.ReadSnapshotName` | bin/cli/backups.ts:255-269 | the method that reassigns the middle and the kind returns what the function does |
| `Snapshots.NameReadsBack` | bin/cli/backups.ts:243-269 | a snapshot’s name reads back under its folder exactly when its year is from 0100 to 9999 |
| `Snapshots.OnlyOneFolder` | bin/cli/backups.ts:248-269 | no name is a snapshot of two folders |
| `Snapshots.ReadUnderNoOtherFolder` | bin/cli/backups.ts:248-269 | the name made for a folder is read under no other, whatever the year |
| `Snapshots.NameReadReprints` | bin/cli/backups.ts:243-269 | a name that reads is the name made for what it says |
| `Codes.GenerateCode` | api/src/locks.ts:82-100 | six bytes give a valid code, each character from its own byte; fewer are refused |
| `Codes.ValidCodeChars` | api/src/locks.ts:62-115 | a code is valid exactly when it is six of the alphabet’s 32 characters |
| `Codes.EveryCodeIsAsLikely` | api/src/locks.ts:82-100 | of the 256^6 draws of six bytes exactly 8^6 give any one code |
| `Stanzas.StanzaReads` | api/src/locks.ts:239-286 | a stanza gives its code to its own slug alone and closes every address of that one alone, whatever its comments and its pages’ folder |
| `Stanzas.KeyLineReads` | api/src/locks.ts:451-455 | the key matcher reads back as the code, for its slug and no other |
| `Stanzas.HostLineCloses` | api/src/locks.ts:441-445 | the host matcher closes every address of its slug and of no other |
| `Stanzas.LockSlugsAreLabels` | api/src/locks.ts:123-125 | a slug of at most 63 characters may be locked exactly when it passes the zone list’s own test |
| `StanzaDoors.LetsThroughExactly` | api/src/locks.ts:239-286 | whatever cookies a request carries, a stanza’s lines let it through exactly when the one of the site’s name is the code |
| `StanzaDoors.GivesExactly` | api/src/locks.ts:239-286 | and the one cookie they give is that one |
| `Fragment.BuildFragment` | api/src/locks.ts:328-374 | the generator succeeds exactly when a lock is asked for where a valid code is in force and nowhere else, slugs and hosts are usable, and none are shared; then it renders the locked sites, and otherwise its error is true of the sites it names |
| `Fragment.CookiesAndHosts` | api/src/locks.ts:353-366 | in the map they share, a cookie is never taken for a host nor for another slug’s cookie |
| `Fragment.Claim` | api/src/locks.ts:356-366 | the inner loop claims the cookie and the host for the slug, or stops on the one that is taken and names who has it |
| `Fragment.Check` | api/src/locks.ts:332-351 | a site passes exactly when it is sound, and the error of one that does not is true of it |
| `FragmentReads.LockedSiteReadsBack` | api/src/locks.ts:328-455 | in a generated fragment a locked site has its own code in force and is closed at every address |
| `FragmentReads.OtherSlugReadsNothing` | api/src/locks.ts:441-455 | and any other slug has no code and nothing closed |
| `FragmentReads.TextIndependentOfOrder` | api/src/locks.ts:320-332 | the text depends only on which sites there are, not on the order given, for any comparison the sort uses that tells two slugs apart |
| `JsonArrays.StringifyIsInjective` | bin/cli/comparison.ts:83-83 | no two lists of lines have the same key |
| `Comparison.Directives` | bin/cli/comparison.ts:64-86 | the scan gives the directives of the items the lines are cut into |
| `Comparison.ScanGroup` | bin/cli/comparison.ts:72-78 | the inner loop takes lines until the braces balance, or to the end |
| `Comparison.ItemsCutTheLines` | bin/cli/comparison.ts:64-86 | the items are the lines in order, nothing lost or repeated, every group staying open until its last line |
| `Comparison.OnlyOneCut` | bin/cli/comparison.ts:64-86 | and any other cut with those properties is that one |
| `Comparison.ComparedIsEmpty` | bin/cli/comparison.ts:88-102 | nothing is lost or added exactly when the keys are the same |
| `Comparison.SameExactlyWhenItemsAgree` | bin/cli/comparison.ts:54-102 | two files have the same plain lines and the same ordered groups exactly when they compare equal and no plain line of one reads as the JSON of a group of the other, the two not being in both |
| `Comparison.SameMeansSameItems` | bin/cli/comparison.ts:54-102 | so the comparison is the one intended whenever no plain line of one file is the JSON of a group of the other |
| `Blocks.BlocksCompareInOrder` | bin/cli/comparison.ts:49-102 | two files that are each one route or handle, with a one-line matcher whose braces balance or none, around a balanced body, compare equal exactly when their opening lines are the same and the useful lines of their bodies are the same list |
| `Blocks.PlainFilesCompareAsSets` | bin/cli/comparison.ts:64-102 | files that open no route and no handle compare equal exactly when they have the same set of useful lines |
| `Blocks.OtherBlocksCompareInAnyOrder` | bin/cli/comparison.ts:64-102 | so a block whose lines begin with neither word compares equal to itself in any other order |
| `Blocks.OpeningExactly` | bin/cli/comparison.ts:49-50 | a line opens a group exactly when it is one of the two words, a matcher or none, and a brace |
| `Blocks.BracesCount` | bin/cli/comparison.ts:52-54 | a line’s depth is its opening braces less its closing ones |
| `Blocks.UsefulReadsBack` | bin/cli/comparison.ts:35-40 | a text of lines that are neither blank nor comments nor indented is exactly those lines |
| `Blocks.LostAndAdded` | bin/cli/comparison.ts:88-97 | what is shown as lost or added is exactly what one file has and the other has not |
| `Blocks.BlockIsShownOnOneLine` | bin/cli/comparison.ts:79-82 | a block with nothing nested is shown on one line, its lines between semicolons |
| `Comparison.SameDirectives` | bin/cli/comparison.ts:99-102 | the method answers what the theorems call comparing equal |
| `Comparison.SameIsAnEquivalence` | bin/cli/comparison.ts:99-102 | comparing equal is an equivalence, on all files |
| `Comparison.CommentsDoNotCount` | bin/cli/comparison.ts:35-40 | a comment or a blank line anywhere changes no comparison |
| `Comparison.IndentationDoesNotCount` | bin/cli/comparison.ts:35-40 | nor does the indentation of any line |
| `Comparison.OrderDoesNotCount` | bin/cli/comparison.ts:88-102 | two stretches of directives whose groups close compare the same in either order |
| `Comparison.ForgedLineIsTakenForItsGroup` | bin/cli/comparison.ts:54-86 | any file compares equal to the one with each of its groups written on one line as its JSON, and the two differ exactly when it has a group |
| `Comparison.ForgedExample` | bin/cli/comparison.ts:54-86 | two texts that compare equal and share no directive: one line of JSON, and a route |

## Left out

- ssh, HTTP, Cloudflare’s API, systemd, rsync, Caddy and the shell beyond the lock’s steps: the model starts at the text or the state they hand over.
- A lock answer lost with its connection, and the environment variable that passes the lock on to the scripts (`releaseHeldScript`, `checkScript`): nothing here models who runs inside another’s lock.
- `readRelease` and `readOwnership`: they choose a message.
- The path a lock is set aside under is taken to be its script’s own; that `mv` onto a directory of that name left behind by a killed script nests is modelled only as the removal of what is left (`Sweep`).
- The holder of a lock directory is its file’s line when that reads; a directory’s modification time is a number of milliseconds of the machine’s clock.
- `domainConflicts`, re-checked under the lock beside the ports: domains are not part of `Deployments`.
- The `domain` command, which deposits without re-checking ports; the secrets, the units and the blocks a deployment also writes.
- Refusal messages and reports: `die`, `describePlan`, `summariseDivergence` and the reasons of a plan’s conflicts.
- `canonicalAddress`: any function stands for it; that it maps an address’s spellings to one is the URL parser’s.
- TTLs: every write sets the automatic one, and no plan looks at it.
- Case: `Lower` maps the ASCII letters, the only ones of a domain name; JavaScript’s maps others too.
- `localeCompare` and `sort`: an arbitrary comparison under which no two different slugs tie, other texts being free to, and any list of the same sites sorted by it.
- FragmentReads.LockedSiteReadsBack: for a folder of door pages whose path holds no line break; one that does could write a matcher of its own into the fragment, and the default is `/srv/garde`.
- FragmentReads.OtherSlugReadsNothing: the same.
- Comparison.OrderDoesNotCount: for stretches whose groups close; an unclosed one takes in whatever follows it.
- DnsTheorems.MachinePlanMeets: for a listing that holds each record of the two names once; that the provider’s pages give one is not modelled, and one that repeats the record kept breaks it (`DnsTheorems.RecordListedTwiceIsDeleted`).
- DnsTheorems.TunnelPlanMeets: the same.
- Comments in the lock fragment: any lines that begin with a number sign, in place of the source’s own.
- JSON and regular-expression engines: the accepted language is written as a predicate; manifests and code tables are records, absent where a value is not text.
- `globExpression`, `isExcluded` and the listing of a folder before it is archived.
- Unpaired surrogates: texts are sequences of Unicode scalar values. A file’s time is a real number, not a float.
- Randomness: a draw is the bytes the source returned.
- `stanza`’s effect in Caddy: its opening matcher and its cookie header are read as one request would meet them; which of its blocks answers, and the pages they serve, are not modelled.
- `count`, `onDemandPolicy` against its grep form, and the messages of `zoneNamesScript`.
