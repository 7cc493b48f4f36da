# Verified models of a hosting platform's host-side services

This project states and proves what seven pieces of the platform are for: the out-of-memory
witness of the security probe, the crash-safe peer file, the nftables rule builders, the
interval-set codec, the firewall reconcilers, the mail backup tools and the SFTP gateway.

Each model follows the code it is about: the same branches, the same constants, the same error
paths. Objects that change in place are classes, loops are loops proved against a specification
function, and code that only computes is functions. What is outside (kernel, API server, IMAP
and JMAP servers, disks, clocks) is an environment that may answer anything within the
assumptions below.

`dafny verify dfyconfig.toml` checks the whole project.

## Modules

| file | modules | about |
|---|---|---|
| `memcg_model.dfy`, `memcg_witness.dfy` | MemcgModel, MemcgWitness | the OOM witness: every run of rescans and inotify batches |
| `boot_file_system.dfy`, `persist_calls.dfy`, `string_order.dfy`, `text_parts.dfy`, `peer_persister.dfy`, `peer_file.dfy` | BootFileSystem, PersistCalls, StringOrder, TextParts, PeerPersister, PeerFile | the boot-restore file, power cuts, runs of persist calls, and what the file says |
| `nft_machine.dfy`, `traffic_rules.dfy`, `traffic_meaning.dfy`, `blacklist_rule.dfy` | NftMachine, TrafficRules, TrafficMeaning, BlacklistRule | a register machine for nft rules, and what the compiled rules mean |
| `powers.dfy`, `octets.dfy`, `interval_codec.dfy`, `decimals.dfy`, `spaces.dfy`, `port_text.dfy` | Powers, Octets, IntervalCodec, Decimals, Spaces, PortText | set elements and port texts |
| `cidr_algebra.dfy`, `crowdsec.dfy`, `blacklist_reconcile.dfy` | CidrAlgebra, Crowdsec, BlacklistReconcile | prefixes as address sets, and the two ban lists |
| `json_merge.dfy`, `seconds.dfy`, `status_noop.dfy`, `informer_filters.dfy`, `pending_peers.dfy` | JsonMerge, Seconds, StatusNoop, InformerFilters, PendingPeers | status writes, what runs the peer loop, and pending peers |
| `exec_pipe.dfy`, `sftp_paths.dfy`, `rsync_command.dfy`, `session_manager.dfy` | ExecPipe, SftpPaths, RsyncCommand, SessionManager | the SFTP gateway |
| `subsequence.dfy`, `imap_restore.dfy`, `imap_shard.dfy`, `imap_names.dfy`, `maildir_names.dfy` | Subsequence, ImapRestore, ImapShard, ImapNames, MaildirNames | mail restore and capture |
| `filenode_destroy.dfy`, `filenode_restore.dfy` | FileNodeDestroy, FileNodeRestore | file trees |

## Assumptions

- OOM witness: a rescan or an event batch is one atomic step, since the mutex is held over it;
  the clock does not go back; counters of a live pod or container cgroup do not fall; the cgroup of a
  removed pod or container does not come back under its name; directory listings and inotify events
  are truthful, so that what is reported created existed; after a watch's end is reported there are
  no more events on it; a `memory.events` that cannot be read at adoption means nothing was
  counted so far; the kernel hands out watch descriptors for the path that was asked for.
- Peer file: the persister is the only writer; directory changes reach the disk in order, unsynced
  data in any state at all; the directory itself already exists on disk.
- nft: registers start empty in each rule, sets are looked up by name.
- Addresses are already unmapped, so a family and a number say all.
- API server: a write to the status subresource changes nothing else; a spec change bumps the
  generation.
- Pending peers: all nodes share one clock that does not go back; what a pass reads is the objects as
  they were after some earlier change, not a mixture; objects are created without a claim, and their
  spec is not edited.
- Settled status writes (`SettledWrites`, `ComesToRest`): each reconciler's copy of the object is up
  to date when it writes. That no status write runs the loop needs no such thing.
- IMAP: a rejected append adds nothing, an accepted one adds its messages in order (the APPEND
  command, section 6.3.11 as numbered in RFC 3502). An append broken off by another exception may or
  may not have added them.
- Remote command: the exec call returns only after its copy of stdout has ended.
- Session ids and the ids a JMAP server gives to new nodes are not in use.

## What the proofs found

- Persist: success does not always mean durable. After two replaces that fail at the directory sync,
  in a run a, b, a, a fourth call finds a in place and reports success while the disk is at b
  (`TwoFailedDirectorySyncs`). `SuccessDurableIff` states exactly when it does mean durable: a call
  that skips its work does so exactly when no other content was settled last or renamed since.
- Pending peers: a pass that reads a copy from before the claim writes claimedAt again
  (`OldViewRewrites`), which can let a withdrawn address back in (`OldViewLetsBackIn`), or deletes the
  peer as expired inside the grace of its claim (`OldViewDeletesClaimed`); one that reads a copy of an
  earlier object of the same name deletes the present one (`OldViewDeletes`). `ClaimRewrittenIff`,
  `BackInIff` and `DeletedIff` give the exact conditions.
- The peer loop also reads claimedAt, which is in the status, against the comment at
  `images/firewall-reconciler/informer_filters.go:7`; a claim takes effect on the next periodic pass.
- Mail capture: two folders whose names differ only in replaced characters share a directory, and
  messages of one replace messages of the other (`SharedPathIff`, `MergedFolders`).
- Sessions: unregistering under another user's name leaves the owner's counter too high, and the named
  user's too low if that user has sessions (`Unregister`). The program never does so: its only call, at
  `images/sftp-gateway/session.go:135`, passes the session's own user.
- CrowdSec exclusions: a ban that strictly contains an exclusion survives, against the comment at
  `images/firewall-reconciler/crowdsec_reconcile.go:144-149` (`SurvivorTouches`, `WideBanSurvives`).
  Trips are counted over the process's life, not only consecutive ones as the comment at line 66 says.
- Set elements: a prefix whose block ends at the last address is written but not read back
  (`CidrReadBack`).
- Bisection: when everything is refused a batch of n costs exactly 4n-2 appends, not O(log n)
  (`FlushBatch`).
- File trees: the restore keeps the snapshot's own order, it does not sort parents before children as
  its description says; a folder listed before its parent ends at the root (`ChildListedFirst`).
- A file tree restore that a JMAP call leaves with an exception has counted the nodes before it, and
  what that call did is in no count and not in the id map (`Restore`).
- A parallel restore whose worker crashed counts that worker's whole share as failed, also the
  messages it had already appended.
- With `/` as the data root every path becomes `/` (`RootOfAll`).
- A pod that is created again after it was marked removed gets a fresh record; what had been recorded
  for it is dropped with the old one (`AdoptLocked`).
- A pending peer without a usable address is never deleted (`ClassifyOne`).

## Model

| member | source | states |
|---|---|---|
| MemcgModel.HistoryExtend | images/security-probe/memcg.go:285-331 | the world between two locked steps: clocks and live counters, of pods and containers, never fall and what is removed stays away, so a history of worlds stays a history |
| MemcgModel.ReadPodInv | images/security-probe/memcg.go:436-510 | a read keeps everything that holds of a record: counters equal the sum of all recorded rises, each rise is exactly what the kernel counted in its interval, intervals are ordered and disjoint, and each pending or named container was seen to rise above its last read and above its adoption baseline |
| MemcgModel.ReadPodCurrent | images/security-probe/memcg.go:456-510 | after a read of a readable live pod the record holds the kernel's counters of now |
| MemcgModel.FreshPodInv | images/security-probe/memcg.go:333-375 | adoption establishes the same facts; before the first rescan the lower bound is 0, afterwards the previous rescan |
| MemcgModel.PodExtend | images/security-probe/memcg.go:285-331 | a record that is right stays right while counters grow and cgroups come and go |
| MemcgModel.PublishedIsRight | images/security-probe/memcg.go:577-618 | what is published is the last at most 16 recorded rises, in order, without overlap, and their sum as counters; every container a rise names was seen inside it with its own kill counter above its last read and its baseline |
| MemcgModel.NamedOnce | images/security-probe/memcg.go:482-505 | a recorded rise that names containers names only ones seen to rise no earlier than the last rise that named any: what was seen up to then is not attributed again |
| MemcgModel.NoRiseRecordedMeansNone | images/security-probe/memcg.go:456-510 | negative evidence: between two steps of the watched stretch that no recorded rise overlaps the kernel counted nothing |
| MemcgModel.RisenRose | images/security-probe/memcg.go:436-452 | a container that a read finds risen was there when adopted, when last read and now; a kill counter of its own is above what the last read gave and above the baseline taken at adoption, and no read of the record in between could read it |
| MemcgModel.RisenIff | images/security-probe/memcg.go:436-452 | and a read finds risen exactly the tracked containers that can be read now and of which the kernel's kill or group count is above its value at the last step at which a read could read them, or at adoption |
| MemcgModel.ReadScopesExact | images/security-probe/memcg.go:380-452 | after a read the tracked containers are those there are, and the counters kept of each that can be read are the kernel's of that step; the others keep what they had |
| MemcgModel.ReadNames | images/security-probe/memcg.go:456-510 | a read that finds the pod risen records an increase that names exactly the containers pending and those risen since their last read, and clears them; any other read leaves just those pending and names none |
| MemcgModel.EveryRiseIsNamed | images/security-probe/memcg.go:456-510 | over any number of reads up to the next that finds the pod risen, the increase it records names exactly what was pending at first and every container any of these reads found above its own last read |
| MemcgWitness.Witness.constructor | images/security-probe/memcg.go:209-223 | an empty witness satisfies the invariant of every reachable state |
| MemcgWitness.Witness.SyncScopesLocked | images/security-probe/memcg.go:380-402 | the recorded containers become those listed, old ones keep their baseline, and every watch still maps back to its container |
| MemcgWitness.Witness.AdoptScopeLocked | images/security-probe/memcg.go:404-421 | adopting a container takes its counters as baseline and maps its watch to it |
| MemcgWitness.Witness.DropScopeLocked | images/security-probe/memcg.go:423-430 | dropping a container unmaps its watch and no other |
| MemcgWitness.Witness.ReadScopesLocked | images/security-probe/memcg.go:436-452 | takes over the counters of every container that can be read, returns exactly those of which a kill counter rose, and forgets those that are gone |
| MemcgWitness.Witness.ReadPodLocked | images/security-probe/memcg.go:456-510 | one pod is re-read in place, all other records and watches are left alone |
| MemcgWitness.Witness.AdoptLocked | images/security-probe/memcg.go:333-375 | a live record is re-read, anything else starts afresh with its watches mapped; the witness invariant holds after |
| MemcgWitness.Witness.WatchPodLocked | images/security-probe/memcg_inotify.go:60-68 | the pod's watches map back to the pod |
| MemcgWitness.Witness.ForgetLocked | images/security-probe/memcg.go:562-572 | forgetting a removed pod drops its record and its watches and nothing else |
| MemcgWitness.Witness.EvictedOldest | images/security-probe/memcg.go:548-559 | forgetting along the oldest-first order until the cap is met leaves no removed pod older than one forgotten |
| MemcgWitness.Witness.EvictLocked | images/security-probe/memcg.go:531-560 | over the cap removed pods go oldest first, live pods never, and no more than needed |
| MemcgWitness.Witness.PruneLocked | images/security-probe/memcg.go:531-560 | a removed record stays two hours, one with kills a day, and goes earlier only for the cap of 2000, oldest first; a live pod is never forgotten |
| MemcgWitness.Witness.MarkVanished | images/security-probe/memcg.go:322-326 | live records whose cgroup is gone are marked removed, others are unchanged |
| MemcgWitness.Witness.Rescan | images/security-probe/memcg.go:285-331 | after a rescan every existing pod is tracked live and current, vanished ones are marked, then the expired are gone and over the cap the oldest removed ones and no others; the invariant of reachable states is kept |
| MemcgWitness.Witness.RescanWithoutRoot | images/security-probe/memcg.go:294-299 | without a kubepods root only the rescan time moves |
| MemcgWitness.Witness.WatchParentLocked | images/security-probe/memcg_inotify.go:48-58 | a parent already watched is left alone, another is watched by the one new descriptor; each watched parent has exactly one |
| MemcgWitness.Witness.OnOverflow | images/security-probe/memcg_inotify.go:127-135 | an overflow is noted, only the last eight are kept |
| MemcgWitness.Witness.OnParentEvent | images/security-probe/memcg_inotify.go:136-148 | a pod created under a watched parent is adopted and up to date; the end of the watch unmaps that parent only; anything else changes nothing |
| MemcgWitness.Witness.OnScopeEvent | images/security-probe/memcg_inotify.go:149-165 | the end of a container's watch forgets that container and no other, and only if it still holds the watch; a change marks its pod for reading and nothing else |
| MemcgWitness.Witness.OnPodEvent | images/security-probe/memcg_inotify.go:166-194 | no existing pod is marked removed; a reported deletion marks exactly that pod; a new container is adopted; a change marks the pod for reading |
| MemcgWitness.Witness.OnPodIgnored | images/security-probe/memcg_inotify.go:165-179 | the end of a pod's watch is unmapped; the pod is marked removed exactly when its directory is gone |
| MemcgWitness.Witness.HandleEventLocked | images/security-probe/memcg_inotify.go:124-194 | any single truthful event keeps the invariant of reachable states, keeps up-to-date records up to date, and marks or updates the pod it reports |
| MemcgWitness.Witness.HandleEvents | images/security-probe/memcg_inotify.go:95-122 | a whole batch keeps it, tells overflow exactly, and leaves every pod up to date of which it reports a change through its own watch or a container's, or the creation under a watched parent |
| MemcgWitness.Witness.Published | images/security-probe/memcg.go:577-618 | what a snapshot gives for a pod is right in the sense of PublishedRight |
| BootFileSystem.DurableSurvives | images/firewall-reconciler/nft_persist.go:59-82 | durable content is what a boot reads after any write-back and a power cut |
| BootFileSystem.NotDurableCanBeLost | images/firewall-reconciler/nft_persist.go:59-82 | and content that is not durable can be lost: some write-back and a power cut leave something else |
| BootFileSystem.CrashSettles | images/firewall-reconciler/nft_persist.go:59-82 | a machine that comes back has one settled file, the one its boot read |
| BootFileSystem.SoundBootsWhole | images/firewall-reconciler/nft_persist.go:84-121 | in a sound state a boot reads one complete content: one asked for or the one there at the start |
| BootFileSystem.SoundRename | images/firewall-reconciler/nft_persist.go:84-100 | renaming a finished temporary file over the target keeps the state sound |
| PersistCalls.PathConcat | images/firewall-reconciler/nft_persist.go:84-140 | system calls in turn, with any write-back before, between and after them, compose |
| PersistCalls.SucceedsIff | images/firewall-reconciler/nft_persist.go:59-140 | which calls succeed, by the outcomes of their system calls: skipped, synced in place, or every single one up to the directory sync worked |
| PersistCalls.OpsMade | images/firewall-reconciler/nft_persist.go:59-140 | which system calls a call makes and in which order: a target is renamed over only by a written and synced file, the directory is synced after that, and a file that does not get there is removed |
| PersistCalls.CallFollows | images/firewall-reconciler/nft_persist.go:59-82 | whatever write-back does during a call, what the caller can tell from the calls stays right: what is remembered and visible, and that the entries on disk are a tail of the contents pending |
| PersistCalls.RunFollows | images/firewall-reconciler/nft_persist.go:59-82 | over every run of calls from any file system the reported results and the pending contents are a function of the calls and their outcomes |
| PersistCalls.QuietRun | images/firewall-reconciler/nft_persist.go:59-82 | every sequence of calls has a run in which every pending content is still a possible boot content |
| PersistCalls.SuccessDurableIff | images/firewall-reconciler/nft_persist.go:59-82 | a success is durable under every write-back exactly when the call did its work or the content settled by the last directory sync and all renamed since equal the one asked for |
| PeerPersister.RenderIgnoresOrder | images/firewall-reconciler/nft_persist.go:145-163 | the file depends on the members of the sets, not on their order |
| PeerFile.FileSays | images/firewall-reconciler/nft_persist.go:142-163 | a reader of the file's add-element lines finds in it, under the name of each of the four sets, exactly that set's members, each as often as given, and nothing under any other name |
| PeerFile.SameFileSameMembers | images/firewall-reconciler/nft_persist.go:142-163 | so sets that give one file have the same members |
| PeerPersister.Persister.EveryCrashBootsWhole | images/firewall-reconciler/nft_persist.go:59-140 | at every step of every sequence of persist calls a power cut leaves a whole file, never an empty or partial one |
| PeerPersister.Persister.WriteSynced | images/firewall-reconciler/nft_persist.go:102-121 | makes exactly the system calls of its outcomes; success means the temporary file has the content on disk; readers of the target see no change |
| PeerPersister.Persister.Replace | images/firewall-reconciler/nft_persist.go:84-100 | makes exactly the system calls of its outcomes; success means durable; otherwise readers see the old or the new content |
| PeerPersister.Persister.SyncExisting | images/firewall-reconciler/nft_persist.go:123-128 | success makes the visible content durable without changing it |
| PeerPersister.Persister.SyncDirectory | images/firewall-reconciler/nft_persist.go:130-140 | a directory sync leaves only the visible entry |
| PeerPersister.Persister.Persist | images/firewall-reconciler/nft_persist.go:59-82 | follows the transition of one call, so its history is a run; a skipped call changes nothing; a success is durable unless it skipped with other content pending |
| PeerPersister.TwoFailedDirectorySyncs | images/firewall-reconciler/nft_persist.go:59-82 | a run of four calls for the files of a, b, a, a, with two failed directory syncs, reports success, failure, failure, success and ends with a visible and b read at boot |
| StringOrder.StrLeqIff | images/firewall-reconciler/nft_persist.go:155-157 | the order of the sort: a beginning comes first, otherwise the first character that differs decides |
| NftMachine.RunAppend | images/firewall-reconciler/traffic_nft.go:236-244 | running a concatenation of rules is running one part after the other |
| TrafficRules.ClassExprs | images/firewall-reconciler/traffic_nft.go:316-347 | the loop compiles one class into its port rules, each protocol and range in table order |
| TrafficRules.N2NChainExprs | images/firewall-reconciler/traffic_nft.go:316-347 | the loop compiles any class table into one rule block per class and the catch-all |
| TrafficRules.PortOrder | images/firewall-reconciler/traffic_nft.go:349-354 | comparing port bytes is comparing port numbers |
| TrafficRules.RunPortRule | images/firewall-reconciler/traffic_nft.go:316-354 | a port rule counts and returns exactly the packets of its protocol and range |
| TrafficRules.N2NClassifies | images/firewall-reconciler/traffic_nft.go:316-347 | for every class table and packet the n2n chain bumps exactly one counter, that of the first matching class or n2nother, and returns |
| TrafficRules.BaseChainExprs | images/firewall-reconciler/traffic_nft.go:256-314 | the base chain: loopback returns, backup traffic counts and returns, peers jump |
| TrafficRules.RunBackupRule | images/firewall-reconciler/traffic_nft.go:256-314 | the backup rule counts exactly the packets between the shim and outside over a physical interface |
| TrafficRules.RunJumpRule | images/firewall-reconciler/traffic_nft.go:256-314 | the jump rule jumps exactly for packets of its family with a peer address |
| TrafficRules.BaseChainCounts | images/firewall-reconciler/traffic_nft.go:236-354 | over base chain and jump a packet bumps at most one counter, the intended one, and its verdict is never changed |
| TrafficMeaning.TableCounts | images/firewall-reconciler/traffic_nft.go:236-354 | for every class table and packet, by the packet's own address, port and protocol fields: on the way in a packet that comes over a physical interface from no peer to the shim bumps backup_in, otherwise a packet whose source address is a peer bumps the in-counter of its class; on the way out the same of destination, source and the outgoing interface; loopback and all else bump nothing, and the packet goes on |
| TrafficMeaning.NodeToNodeCounts | images/firewall-reconciler/traffic_nft.go:316-347 | each node-to-node chain bumps the one counter of the first class with the packet's protocol and one of its ports in range, or n2nother |
| TrafficMeaning.BackupMeans | images/firewall-reconciler/traffic_nft.go:256-314 | the backup rules match by those fields |
| TrafficMeaning.PeerMeans | images/firewall-reconciler/traffic_nft.go:256-314 | so do the jumps: the source address is looked up on the way in, the destination address on the way out |
| BlacklistRule.RuleLooksUpSet | images/firewall-reconciler/nft_blacklist_rule.go:228-236 | finds a lookup of the named set if there is one |
| BlacklistRule.BlacklistDropRulePresent | images/firewall-reconciler/nft_blacklist_rule.go:217-226 | true exactly when some rule looks the set up |
| BlacklistRule.FindBlacklistDropAnchor | images/firewall-reconciler/nft_blacklist_rule.go:262-274 | after the first conntrack rule, else before the first crowdsec rule, else nowhere |
| BlacklistRule.RunDropRule | images/firewall-reconciler/nft_blacklist_rule.go:177-196 | the compiled rule drops exactly the packets of its family whose source is in its set |
| BlacklistRule.InputChain.Insert | images/firewall-reconciler/nft_blacklist_rule.go:71-166 | a rule goes right before or right after the rule with the handle |
| BlacklistRule.InputChain.EnsureBlacklistDropRules | images/firewall-reconciler/nft_blacklist_rule.go:71-166 | the chain becomes the healed chain, v4 before v6 on either side of the anchor, and no rule is lost |
| BlacklistRule.Todo | images/firewall-reconciler/nft_blacklist_rule.go:71-166 | the missing families in the order of insertion, reversed in place when inserting after the anchor |
| BlacklistRule.HealedVerdict | images/firewall-reconciler/nft_blacklist_rule.go:71-166 | exactly the packets that reach the inserted rules with a listed source are dropped; every other packet runs as before |
| BlacklistRule.HealedIsStable | images/firewall-reconciler/nft_blacklist_rule.go:71-166 | a second pass adds nothing, and after one with an anchor both rules are there |
| IntervalCodec.AddAt | images/firewall-reconciler/nft.go:1014-1044 | the byte-wise carry loop adds the number, with the carry out of the top byte returned |
| IntervalCodec.AddPow2 | images/firewall-reconciler/nft.go:1014-1044 | in place: plus 2^exp modulo the address space for every exp below its width, all ones from there on |
| IntervalCodec.NextNetwork | images/firewall-reconciler/nft.go:999-1008 | the bytes of the start of the next network |
| IntervalCodec.IpsToElements | images/firewall-reconciler/nft.go:821-842 | the pairs of the addresses of the family, without the last address |
| IntervalCodec.CidrsToElements | images/firewall-reconciler/nft.go:846-870 | the pairs of the masked prefixes of the family |
| IntervalCodec.ReadIntervals | images/firewall-reconciler/nft.go:505-526 | the pendingStart loop reads exactly what each element completes with at most the one right before it: both ends in one element, or an end behind a start, each of the right width; everything else is skipped |
| IntervalCodec.DecodeAddrElements | images/firewall-reconciler/nft.go:494-529 | keeps the one-address intervals |
| IntervalCodec.DecodeCidrElements | images/firewall-reconciler/nft.go:554-591 | keeps the intervals that are prefixes |
| IntervalCodec.DecodePortElements | images/firewall-reconciler/nft.go:625-669 | reads end 0 as the end of the port space, skips malformed ranges |
| IntervalCodec.PairedRoundTrip | images/firewall-reconciler/nft.go:505-526 | what is written as start and interval-end elements is read back |
| IntervalCodec.KeyEndedRoundTrip | images/firewall-reconciler/nft.go:505-526 | so is the shape the kernel gives back |
| IntervalCodec.IpRoundTrip | images/firewall-reconciler/nft.go:494-529 | decoding the encoded elements of any address list, in either shape, gives back the kept addresses |
| IntervalCodec.IpsComeBack | images/firewall-reconciler/nft.go:821-842 | for every list the decoder hands back each address of the family below 255.255.255.255, or below the last IPv6 address, as often as the list has it, and no other |
| IntervalCodec.IpsKeptConcat | images/firewall-reconciler/nft.go:821-842 | in the order of the list |
| IntervalCodec.PairSpelled | images/firewall-reconciler/nft.go:821-842 | an interval is written as its start and then its end with the end flag, most significant byte first |
| IntervalCodec.PrefixFromIntervalExact | images/firewall-reconciler/nft.go:701-724 | the power-of-two recovery finds a length exactly when there is one |
| IntervalCodec.CidrReadBack | images/firewall-reconciler/nft.go:554-591 | one prefix is read back exactly when its block ends before the last address |
| IntervalCodec.CidrRoundTrip | images/firewall-reconciler/nft.go:846-870 | decoding the encoded elements, in either shape, gives back exactly the prefixes whose block ends before the last address, masked |
| IntervalCodec.SurvivingOne | images/firewall-reconciler/nft.go:846-870 | what a single prefix comes back as: the aligned block its address lies in, with its length, unless the block reaches 2^32 or 2^128 or it is of the other family |
| IntervalCodec.SurvivingConcat | images/firewall-reconciler/nft.go:846-870 | and a list comes back as its prefixes do, in order |
| IntervalCodec.PortRoundTrip | images/firewall-reconciler/nft.go:625-669 | every list of ports and ranges, those up to 65535 included, is read back in either shape |
| IntervalCodec.PortIntervalIs | images/firewall-reconciler/nft.go:889-907 | a range is written up to the port after its last one, 0 after 65535 |
| PortText.ParsePort | images/firewall-reconciler/nft.go:942-961 | accepts exactly one to five digits denoting 1 to 65535, though it stops early |
| PortText.TrimSpaces | images/firewall-reconciler/nft.go:966-974 | takes off the space at both ends |
| PortText.TrimPadded | images/firewall-reconciler/nft.go:966-974 | trimming undoes padding with any space on either side |
| PortText.ParsePortOrRange | images/firewall-reconciler/nft.go:912-937 | a port, or two ports in order around the first dash |
| PortText.PortsToElements | images/firewall-reconciler/nft.go:889-907 | the pairs of the ranges the texts denote, with end 0 for 65535 |
| PortText.CanonicalRange | images/firewall-reconciler/nft.go:637-642 | parsing a printed range, with space around it, gives it back |
| PortText.PortTextRoundTrip | images/firewall-reconciler/nft.go:625-669 | texts to elements of either shape and back to texts; a second trip changes nothing |
| ExecPipe.InvKept | images/sftp-gateway/session.go:652-709 | no step of client, copiers, command or main routine loses or reorders a byte of either stream |
| ExecPipe.ExitAfterOutput | images/sftp-gateway/session.go:175-192 | in every interleaving the exit status, 0 if the command ended well and else 1, reaches a client that is still there only after every stdout byte; stdin is delivered in order and ended only when all was taken |
| ExecPipe.LeftFalls | images/sftp-gateway/session.go:695-709 | after the command ended every step of ours uses up a bounded count and no other step adds to it |
| ExecPipe.NextOurs | images/sftp-gateway/session.go:695-709 | after the command ended some step of ours is always possible until the exit status is sent, whatever the client does |
| ExecPipe.Completes | images/sftp-gateway/session.go:695-709 | hence every run has a bounded number of our steps and can stop only with the exit status sent |
| ExecPipe.EnoughStepsFinish | images/sftp-gateway/session.go:695-709 | a run that takes all of them has sent the exit status |
| ExecPipe.StdinCopierEnds | images/sftp-gateway/session.go:674-679 | the stdin copier that is not waited for can always end after the exit status |
| ExecPipe.StdinArrives | images/sftp-gateway/session.go:679-683 | from every reachable state a running command can be given all the client has sent, and be told of the end, by steps of the copier and of the command alone |
| ExecPipe.StdoutArrives | images/sftp-gateway/session.go:686-692 | and a client that is there all the command has written, by the stdout copier alone |
| ExecPipe.StuckForever | images/sftp-gateway/session.go:655-674 | waiting for the stdin copier too: no run leaves the state where each side waits for the other |
| ExecPipe.WaitingForBothDeadlocks | images/sftp-gateway/session.go:655-674 | and that state is reached, on a run the gateway itself would finish |
| ImapRestore.Connection.Send | images/tenant-backup-tools/imap_client.py:489-572 | one append, accepted, rejected or broken off, is in the log |
| ImapRestore.FlushBatch | images/tenant-backup-tools/imap-restore.py:275-322 | appends an in-order subsequence of the batch; counts are exact; a message fails only when refused alone; at most 4n-2 appends, exactly that when all are refused; against a server that judges one by one exactly the good messages are added |
| ImapRestore.SplitExact | images/tenant-backup-tools/imap-restore.py:313-322 | bisection of a batch with bad messages isolates exactly those |
| ImapShard.KeptFlush | images/tenant-backup-tools/imap-restore.py:366-374 | flushing the queue keeps counts, order and exactness |
| ImapShard.QueuePush | images/tenant-backup-tools/imap-restore.py:412-420 | a queued batch stays within 80 MiB and 200 messages |
| ImapShard.RestoreSized | images/tenant-backup-tools/imap-restore.py:376-424 | the batching loop: an in-order subsequence of the wanted messages, those with size and body, under 90 MiB and not already there; each of 10 MiB or more alone without LITERAL+, every pipelined append within 80 MiB and 200 messages; the counts are the numbers of files in each case |
| ImapShard.RouteFalls | images/tenant-backup-tools/imap-restore.py:376-411 | the loop's tests sort a file as unreadable, of 90 MiB or more, already there by its Message-ID, to be sent alone from 10 MiB on, or batched, exactly |
| ImapShard.CountIsNumber | images/tenant-backup-tools/imap-restore.py:376-424 | each count is the number of files in that case |
| ImapShard.WantedAsOften | images/tenant-backup-tools/imap-restore.py:376-424 | a message is wanted as often as wanted files hold it |
| ImapShard.RestoreShard | images/tenant-backup-tools/imap-restore.py:325-424 | one worker's share, files without a size included; it is stopped exactly by an append that breaks off, and also then the mailbox was extended in order and within the budget |
| ImapShard.Worker | images/tenant-backup-tools/imap-restore.py:520-551 | a worker crashes exactly when it has files and cannot select the folder or an append breaks off; it then counts its whole share as failed, so the counts always add up to the share; without files it counts nothing |
| ImapShard.RestoreParallel | images/tenant-backup-tools/imap-restore.py:477-566 | the four counts add up to the number of files for every number of workers above zero, crashed ones included; each connection appended only its own share, in order; undisturbed, all together added exactly the wanted messages the server takes |
| ImapShard.LengthsAll | images/tenant-backup-tools/imap-restore.py:553-556 | the shares files[k::K] hold every file once |
| ImapShard.ParallelExact | images/tenant-backup-tools/imap-restore.py:477-566 | when every worker with files selects the folder, no append breaks off and the server judges one by one, all connections together added exactly the wanted good messages, each as often as it occurs, and the imported count is their number, for any numbers of files and workers |
| ImapShard.MailboxReceives | images/tenant-backup-tools/imap-restore.py:554-560 | however the appends of the workers that run at once interleave, the mailbox has received what the connections added, each message as often, and those of each connection in its order |
| ImapShard.MailboxExact | images/tenant-backup-tools/imap-restore.py:554-560 | so an undisturbed restore adds to the mailbox exactly the wanted messages the server takes |
| Subsequence.StrideSub | images/tenant-backup-tools/imap-restore.py:553-556 | a share keeps the order of the files |
| CidrAlgebra.ContainsIsSubset | images/firewall-reconciler/crowdsec_reconcile.go:198-213 | the containment test is inclusion of address sets |
| CidrAlgebra.TwoWayIsIntersection | images/firewall-reconciler/reconcile_blacklist.go:90-98 | testing containment both ways is exactly sharing an address, because prefixes are nested or disjoint |
| BlacklistReconcile.Canonical | images/firewall-reconciler/validation.go:89-109 | the canonical prefix covers the same addresses |
| BlacklistReconcile.Intersects | images/firewall-reconciler/reconcile_blacklist.go:90-98 | finds a protected prefix that shares an address with the ban, if there is one |
| BlacklistReconcile.JudgeBan | images/firewall-reconciler/reconcile_blacklist.go:103-158 | a ban is enforced exactly when it is a prefix above /0 sharing no address with protected space; SelfProtect names a prefix it really shares one with |
| BlacklistReconcile.DesiredSets | images/firewall-reconciler/reconcile_blacklist.go:103-161 | the sets are exactly the canonical prefixes of the enforced bans |
| BlacklistReconcile.DesiredSpares | images/firewall-reconciler/reconcile_blacklist.go:103-178 | no address of the desired sets lies in any protected prefix |
| BlacklistReconcile.Reconciler.ApplyOnce | images/firewall-reconciler/reconcile_blacklist.go:40-49 | always writes; changed compares with the last successful write |
| BlacklistReconcile.Reconciler.Pass | images/firewall-reconciler/reconcile_blacklist.go:103-178 | a pass leaves the kernel sets as they were or makes them exactly the enforced bans, touching no protected address |
| Crowdsec.FilterFamily | images/firewall-reconciler/crowdsec_reconcile.go:151-176 | every entry is kept with its own lifetime as often as it was fetched if no exclusion has all its addresses, and not at all otherwise; kept and dropped add up |
| Crowdsec.ApplyExclusions | images/firewall-reconciler/crowdsec_reconcile.go:150-181 | the same for both families together; the dropped count is the intersection count |
| Crowdsec.KeptExact | images/firewall-reconciler/crowdsec_reconcile.go:150-181 | the filter by multiplicities, for every list of entries |
| Crowdsec.ExcludedIsInside | images/firewall-reconciler/crowdsec_reconcile.go:162-169 | being excluded is lying inside a single exclusion, address by address |
| Crowdsec.EnforceFamily | images/firewall-reconciler/crowdsec_reconcile.go:247-286 | at most 500000 entries, all of them given ones with their lifetimes, none dropped below the cap; they are in the order of their prefixes' texts and nothing dropped comes before something kept |
| Crowdsec.IntersectFamily | images/firewall-reconciler/crowdsec_reconcile.go:291-308 | counts the excluded entries |
| Crowdsec.ShouldSelfProtectTrip | images/firewall-reconciler/crowdsec_reconcile.go:315-323 | trips exactly when more than one in twenty proposed bans is excluded |
| Crowdsec.RoundedRatio | images/firewall-reconciler/crowdsec_reconcile.go:321-322 | rounding quotient and threshold to doubles does not change the test for lists of up to 2^51 entries |
| Crowdsec.Reconciler.Tick | images/firewall-reconciler/crowdsec_reconcile.go:407-499 | keeps, over every run: at most three trips, nothing after the third, and every list that passes has at most 500000 entries a family, all fetched and inside no exclusion, leaves out no entry outside the exclusions but for the cap, and then none before one it keeps in text order, with at most one twentieth dropped |
| Crowdsec.SurvivorTouches | images/firewall-reconciler/crowdsec_reconcile.go:150-181 | an entry that passes shares an address with an exclusion exactly when it strictly contains it |
| Crowdsec.WideBanSurvives | images/firewall-reconciler/crowdsec_reconcile.go:150-181 | such an entry exists: 10.0.0.0/24 against the exclusion 10.0.0.5/32 |
| JsonMerge.MergeFlat | images/firewall-reconciler/reconcile.go:463-489 | under the merge patch of RFC 7396 a flat patch overwrites just its keys |
| StatusNoop.NoopIff | images/firewall-reconciler/status_noop.go:96-127 | a write is skipped exactly when the patch would change nothing but times and the sync time is fresh |
| StatusNoop.SkippedIff | images/firewall-reconciler/status_noop.go:96-166 | key by key: a write is skipped exactly when the status there has each of the payload's values under its own key, one condition of the same type, status, reason and message for each of its conditions, and, if a sync time would be written, one less than five minutes away |
| StatusNoop.ConditionsEqualIff | images/firewall-reconciler/status_noop.go:132-150 | the condition comparison is equality without transition times |
| StatusNoop.WriteShows | images/firewall-reconciler/reconcile.go:494-519 | after a write the status shows the payload |
| StatusNoop.WriteSays | images/firewall-reconciler/reconcile.go:463-541 | after a write each of the payload's values is under its own key, times to the second, and every other key is as it was |
| StatusNoop.FixedFieldsSay | images/firewall-reconciler/reconcile.go:494-519 | the keys of a payload and what each of them holds |
| StatusNoop.SamePayloadIff | images/firewall-reconciler/status_noop.go:96-150 | two payloads are the same but for times exactly when they put the same under every key |
| StatusNoop.AfterWriteSkipped | images/firewall-reconciler/status_noop.go:96-166 | after a write the same payload is skipped exactly while the clock is under five minutes from the written second |
| StatusNoop.TransitionStep | images/firewall-reconciler/status_noop.go:74-86 | one write or skip, for any list of conditions of distinct types: the time of each moves exactly when its status, reason or message does or its type is new; a payload without conditions leaves them |
| StatusNoop.TransitionTimeOfRun | images/firewall-reconciler/reconcile.go:525-541 | over every run of payloads each condition's transition time is when it last became what it is |
| StatusNoop.SettledWrites | images/firewall-reconciler/status_noop.go:96-166 | an object whose content is settled is written once and then at most once per refresh interval less a second, by all nodes together |
| StatusNoop.UnsyncedWrites | images/firewall-reconciler/status_noop.go:96-127 | content without a sync time is written at most once, and not at all where the status shows it |
| StatusNoop.ShownIsRefreshed | images/firewall-reconciler/status_noop.go:96-127 | writing a payload over a status that shows it changes nothing but times |
| InformerFilters.KicksAreEdits | images/firewall-reconciler/informer_filters.go:27-38 | over every run of changes to an object the loop is run once per edit of spec or metadata and never for a status write, whoever makes it and from however old a copy |
| InformerFilters.NoEditMissed | images/firewall-reconciler/informer_filters.go:27-38 | whichever versions the informer delivers, in order, if no update from one to the next runs the loop, spec and metadata of the last are those of the first |
| InformerFilters.SkippedWritesNeverKick | images/firewall-reconciler/informer_filters.go:27-38 | whichever versions of an unedited object it delivers, none runs the loop |
| InformerFilters.ComesToRest | images/firewall-reconciler/informer_filters.go:1-8 | an object left alone comes to rest from any status: no update runs the loop, after the first write only times change, and at most once per refresh interval less a second |
| InformerFilters.NoNodeChangeMissed | images/firewall-reconciler/informer_filters.go:45-65 | over every run of node updates none of which runs the loop, the internal addresses the loop uses, and all else of the nodes but the rest of their status, are unchanged |
| InformerFilters.HeartbeatsNeverKick | images/firewall-reconciler/informer_filters.go:40-44 | any number of heartbeats of any nodes never runs the loop |
| PendingPeers.ClassifyOne | images/firewall-reconciler/reconcile.go:134-200 | unusable without an address; expired more than the grace after its claim, or unclaimed more than its lifetime after its creation; otherwise let in, and claimed if unclaimed with a node's address |
| PendingPeers.Reconciler.Classify | images/firewall-reconciler/reconcile.go:134-200 | the addresses, claims and deletions of a pass |
| PendingPeers.Reconciler.ReconcileOnce | images/firewall-reconciler/reconcile.go:97-301 | on any view, current or old: the applied peers are exactly the nodes' addresses and those of pending peers in time; each object is dropped, claimed to the second or left alone exactly by what the view shows of it and which calls fail; nothing is done when the write fails |
| PendingPeers.ClaimHasPass | images/firewall-reconciler/reconcile.go:405-434 | in every state of every run a claim has the time of a pass whose view of the peer was unclaimed, inside its lifetime and a node's, and is untouched since; with an up-to-date view so was the peer itself |
| PendingPeers.ClaimRewrittenIff | images/firewall-reconciler/reconcile.go:405-423 | a pass writes a claim again exactly when what its view shows under the name is unclaimed, inside its lifetime and a node's, and the write works: for a view that shows the object, when it is from before the first claim; for an older one, when it shows such an earlier object |
| PendingPeers.OldViewRewrites | images/firewall-reconciler/reconcile.go:405-434 | a run in which a pass with an old view moves claimedAt |
| PendingPeers.PassDeletesOnlyOutlived | images/firewall-reconciler/reconcile.go:156-170 | in every run a pass deletes a pending peer only when it expired unclaimed, or the pass that wrote its claim lies more than the grace back, or the peer was claimed or created after what the pass read |
| PendingPeers.DeletedIff | images/firewall-reconciler/reconcile.go:156-170 | a pass deletes a peer exactly when its view shows it outlived and the calls work; that is when it is outlived, if nothing happened to it since; a peer that is not outlived is deleted only by a view from before its creation or its present claim |
| PendingPeers.OldViewDeletes | images/firewall-reconciler/reconcile.go:425-434 | a run in which a pass that knows an earlier object of that name deletes the present one inside its lifetime |
| PendingPeers.OldViewDeletesClaimed | images/firewall-reconciler/reconcile.go:156-170 | a run in which a pass that has not seen the claim deletes the peer inside its grace |
| PendingPeers.StaysOut | images/firewall-reconciler/reconcile.go:156-170 | an address that was withdrawn is not let back in by passes whose views are no older than the pass that withdrew it |
| PendingPeers.BackInIff | images/firewall-reconciler/reconcile.go:156-170 | a withdrawn peer is live again exactly when a pass since has written its claim anew and that claim's grace is not over |
| PendingPeers.OldViewLetsBackIn | images/firewall-reconciler/reconcile.go:156-170 | a run in which that happens |
| FileNodeDestroy.DepthMemo.Depth | images/tenant-backup-tools/jmap-aux-restore.py:147-158 | the memoised walk ends on every graph and gives the height of a node without cycles above it |
| FileNodeDestroy.DepthMemo.AllDepths | images/tenant-backup-tools/jmap-aux-restore.py:160-161 | every node gets a depth |
| FileNodeDestroy.DeepestFirst | images/tenant-backup-tools/jmap-aux-restore.py:163-164 | lists each node once, deepest first |
| FileNodeDestroy.PlanOrder | images/tenant-backup-tools/jmap-aux-restore.py:138-164 | each node exactly once, and in a forest without cycles every child before its parent |
| FileNodeDestroy.AllDestroyed | images/tenant-backup-tools/jmap-aux-restore.py:101-180 | against a server that refuses non-empty folders, children first leaves nothing |
| FileNodeDestroy.DestroyTopologically | images/tenant-backup-tools/jmap-aux-restore.py:101-180 | the count is exact whatever fails; if no call fails as a whole and there is no cycle, the tree is empty after |
| FileNodeRestore.RestoreNode | images/tenant-backup-tools/jmap-aux-restore.py:588-639 | one node is counted once unless its call raises; a created one goes under the image of its parent as far as known |
| FileNodeRestore.NodeOutcome | images/tenant-backup-tools/jmap-aux-restore.py:588-639 | which counter a node raises, what its id is mapped to and what changes on the target, outcome by outcome, in each mode |
| FileNodeRestore.OrderExact | images/tenant-backup-tools/jmap-aux-restore.py:553-555 | the order has every node as often as the snapshot, folders before files, each in the snapshot's own order |
| FileNodeRestore.Restore | images/tenant-backup-tools/jmap-aux-restore.py:545-642 | each node reached counted once, all reached unless a call raises, the id map injective in every mode; if all were created, each node is under its parent's image exactly when the parent came earlier |
| FileNodeRestore.TreeRestored | images/tenant-backup-tools/jmap-aux-restore.py:545-642 | a snapshot that lists parents before children comes out as the same tree |
| FileNodeRestore.ChildListedFirst | images/tenant-backup-tools/jmap-aux-restore.py:553-555 | a restore, in any mode, of a snapshot that lists a folder before its parent: the folder is created at the root |
| SftpPaths.SanitizeExact | images/sftp-gateway/session.go:298-316 | for every argument and every clean root but "/" the result is the root, then what the argument names, then its trailing slash; the fallback is never needed |
| SftpPaths.ResolveLaws | images/sftp-gateway/session.go:298-304 | what an argument names is fixed by four laws: empty pieces and "." drop out, a name and ".." behind it cancel, ".." at the top drops out, and other names stand for themselves |
| SftpPaths.UnderComponents | images/sftp-gateway/session.go:298-316 | its components extend the root's and hold no "." and no ".." |
| SftpPaths.RootOfAll | images/sftp-gateway/session.go:305-307 | with "/" as the root every argument becomes "/" |
| RsyncCommand.RewriteRsync | images/sftp-gateway/session.go:430-537 | the in-place loop with index skips accepts exactly the commands without a refused token and rewrites every token by its role |
| RsyncCommand.RewriteAt | images/sftp-gateway/session.go:438-535 | one turn of it |
| RsyncCommand.RefusedIff | images/sftp-gateway/session.go:430-537 | exactly which tokens are refused, in the text itself: the taken value "-", a denied long flag with or without a value, a path-bearing one with the value "-", and a bundle with one of the letters e, s, L, K, k, f, M, T before its first dot, the e right before the dot excepted |
| RsyncCommand.ConsumedIff | images/sftp-gateway/session.go:460-488 | which tokens are taken as the value of the flag before them |
| RsyncCommand.TokensBecome | images/sftp-gateway/session.go:430-537 | what every token of an accepted command becomes: paths are sanitized, also behind the "=" of a path-bearing flag, everything else stays |
| RsyncCommand.EveryPathConfined | images/sftp-gateway/session.go:430-537 | in an accepted command every positional token but ".", every taken value and every non-empty path-bearing flag value is under the root, wherever it stands |
| SessionManager.Manager.Register | images/sftp-gateway/session.go:54-75 | refused exactly when the total or the user's cap, three when none is set, is reached; the counters keep saying how many sessions there are |
| SessionManager.Manager.Unregister | images/sftp-gateway/session.go:77-90 | for any user name: the session goes and the named user's counter is taken down; the counters stay right exactly when the name is the session's own; a second call changes nothing |
| ImapNames.ListNameRoundTrip | images/tenant-backup-tools/imap_client.py:287-302 | for every name without CR or LF, a LIST response that quotes it is read as that name |
| ImapNames.EscapedChar | images/tenant-backup-tools/imap_client.py:287-302 | quoting puts a backslash before every backslash and every quote and changes nothing else |
| ImapNames.UnescapeQuotes | images/tenant-backup-tools/imap_client.py:603-628 | the first unquoting replacement undoes the second quoting one |
| MaildirNames.NameParts | images/tenant-backup-tools/imap_client.py:652-675 | the file name gives back time and uid |
| MaildirNames.NamesDistinct | images/tenant-backup-tools/imap-sync.py:94-125 | different uids in one folder never share a file name |
| MaildirNames.SharedPathIff | images/tenant-backup-tools/imap-sync.py:94-106 | two messages of an account, of any folders, have one path exactly when the folders' directory names, the times, the uids and the letters agree |
| MaildirNames.SharedDirIff | images/tenant-backup-tools/imap-sync.py:67-71 | two folders have one directory name exactly when they differ only where neither has a kept character, underscores aside |
| MaildirNames.MergedFolders | images/tenant-backup-tools/imap-sync.py:94-106 | the folders A/B and A_B do |
| MaildirNames.NameFlags | images/tenant-backup-tools/imap-restore.py:121-127 | the letters in the name give back exactly the system flags |
| MaildirNames.Letters | images/tenant-backup-tools/imap_client.py:98-104 | S, F, R, T and D are the letters of the five system flags, and no other flag has one |
| MaildirNames.SidecarBack | images/tenant-backup-tools/imap-restore.py:130-149 | the sidecar gives back exactly the keywords that do not look like comments |
| MaildirNames.CaptureRoundTrip | images/tenant-backup-tools/imap-sync.py:94-125 | capture and read back: the same time, and the same flags minus \Recent exactly when no keyword starts with "#" |

## Left out

- Crowdsec.EnforceFamily: takes the text form of prefixes as a parameter; the sort is not stable, so entries of one prefix may come in any order.
- Crowdsec.ShouldSelfProtectTrip: takes the quotient over the real numbers; `RoundedRatio` shows that rounding it makes no difference up to 2^51 entries.
- IntervalCodec.DecodeAddrElements: gives addresses in element order; printing them and the final sort of the texts are not modelled. The same holds of IntervalCodec.DecodeCidrElements and IntervalCodec.DecodePortElements.
- StatusNoop.NoopIff: numbers are compared exactly; the code compares them as floating point, which differs above 2^53.
- RsyncCommand.RewriteRsync: starts from the tokens, with any two tables of flags; splitting the command line at white space is not modelled.
- MaildirNames.CaptureRoundTrip: the letters and the sidecar lines may be in any order; that the code sorts them is not modelled.
- Watching: reading inotify's byte buffer, directory-name patterns, the number of retained overflows beyond their bound, and the order of container ids in an increase (ids are sets).
- PendingPeers.ClaimRewrittenIff: runs have no edits of a peer's spec.
- MaildirNames.SharedPathIff: paths are compared as texts; a folder named "." or "..", which the file system resolves, is not looked into.
- Witness records are values in a map; the code's aliasing of one record through two references within a step is not modelled.
- Whether the nft table has to be rebuilt (`trafficStructureCurrent`), traffic counter reading and publishing, and how the applier talks to netlink.
- Creating the directory of the peer file durably.
- Text forms of addresses, prefixes and times: addresses are (family, number), times are integers.
- Kill attribution across a restart of the probe, and everything the probe does besides the witness.
- Tenant ports reconcile loop: same shape as the peers' one, only easy members.
- Legacy scp command rewriting, protocol classification and audit reporting of the SFTP gateway: easy members.
- Message-ID based duplicate collection before a restore, connection set-up and retry delays.
- Restore of sieve scripts, contacts, calendars and vacation responses: the duplicate handling depends on ids that the create path does not keep.
- Health endpoints, back-off, configuration from the environment, the backend's scheduler and the front end.
