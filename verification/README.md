# Verified model of the Heyserver agent's controllers

The agent changes a server's state on request: firewall chain, cron file, Nginx sites, project domains, terminals, its
own profile and its own binary. Every controller follows one pattern. A client names the revision it read, the
controller compares it under a lock, changes things step by step, and undoes them when a later step fails. Some state
is shared with a process the controller does not wait for. This project models those controllers, with the scanners
and parsers they and the repository's scripts rely on, and proves what holds after every run.

Each controller is a class whose methods take the source's steps in the source's order. Each method is proved equal to
a function on values, and the theorems are about that function. Concurrency is a step machine: a run is any
interleaving of steps, and the theorems quantify over all runs. Commands, clocks, the network and other processes are
parameters: each may succeed or fail on every call.

| Files | Subject |
|---|---|
| `Text`, `Base64Url`, `Network`, `NetworkText` | words and lines, base64url (section 5 of RFC 4648), IPv4 blocks (section 3.1 of RFC 4632) and the texts that denote them, mapped IPv6 text (section 2.2 of RFC 4291) included |
| `FirewallRule`, `Firewall`, `FirewallSafety` | firewall rules, the controller, and safety of every run |
| `Profile`, `ProfileProofs`, `ProfileMachine`, `ProfileReads` | staging a profile, the installer that publishes it, every interleaving of their reads and writes, and what answers and reports are worth |
| `Cron`, `CronProofs`, `CronMeaning` | the job list, its two files, clients in any order, and what the edits and the rendered file mean |
| `Nginx` | site writes and enable/disable switches |
| `DomainEnsure` | the project-domain ensure protocol, agent and client |
| `Terminal` | the session map shared by the reader loop and the output forwarders |
| `AgentUpdate`, `AgentUpdateMeaning`, `Archive` | the update life cycle shared with a detached runner; the release archive walk |
| `GoScanner`, `GoScannerProofs` | the Go-source scanner of the catalog script |
| `JsonWalk`, `Utf8`, `ProbePool` | duplicate JSON names, UTF-8 truncation, the context probe pool |

## Assumptions

- SHA-256 digests do not collide: a revision stands for the content that was hashed.
- A write to a temporary file followed by a rename happens fully or not at all.
- Random identifiers are new.
- Other processes edit the firewall chain, the site files and the domain directories between calls, not during one. The
  profile files and the update status are the exception: there every step may fall between any two others.
- The account database is the same at every cron call of a run, except in `CronProofs.ReadableAfterCommit`.
- iptables prints, deletes and inserts argument vectors as it got them, and no argument holds a blank. A source it
  cannot read as IPv4 matches no packet; whether it accepts such a rule at all is left open.
- A restoring write succeeds in the Nginx controller. In the firewall and cron controllers and in the profile
  installer a failing one is part of the model.
- `nginx -t` is a fixed predicate on what the enabled directory shows, and may also fail for reasons of its own.
- systemd keeps one unit per name. A failed scheduling call creates none, and "both units ended" is said only when none is left.

## Where the code falls short of a natural property

Each of these has an input or a run that shows it. All but the last also have the exact condition.

- A failed listing of the firewall chain reads as an empty list. A client that names the empty list then passes the
  revision test although the chain holds rules: Delete removes a rule the client never saw, and Add issues the creation
  of a chain that exists (`FirewallSafety.StaleDelete`, `FirewallSafety.StaleAdd`, `FirewallSafety.UnreadRuleDeleted`,
  `FirewallSafety.UnreadChainCreated`).
- A protected source written as a mapped network with a prefix below 96, such as `::ffff:10.0.0.1/8`, is accepted as
  configuration and then left out of the guard (`FirewallRule.MappedSourceUnprotected`, `FirewallRule.ConfiguredGuard`).
- The agent and the profile installer share four files without a lock. Which step of which interleaving breaks their
  consistency is `ProfileMachine.BreaksIffClash`, and which one loses a profile is `ProfileMachine.LostIffLoses`.
  `ProfileMachine.RunBetweenWrites`, `ProfileMachine.RolledBackOver` and `ProfileProofs.OverlapLosesProfile` are runs.
- A delivery reads the active file and then the state file. When a publication and its confirmation fall between the
  two reads, a superseded revision is staged (`ProfileReads.StaleReadStages`, `ProfileReads.ReadsAroundRun`,
  `ProfileReads.StagedThoughSupersededIff`).
- A heartbeat reads the same two files in sequence. When a rollback falls between its reads, it can report a profile
  as applied that is not active any more; around a successful run it can report a failure
  (`ProfileReads.AppliedAfterRollback`, `ProfileReads.WrongReportIff`, `ProfileReads.WrongReportHasRollback`,
  `ProfileReads.ReportsAroundRun`).
- An installer run whose copying aside breaks off deletes, in its rollback, every file it had not copied yet, the
  active profile included (`ProfileMachine.RollbackPutsBack`).
- "Restart scheduled" is answered for every pending revision, also when the agent was stopped before its scheduling
  call or the run was killed, and then nothing is ever scheduled (`ProfileReads.CutBeforeCall`,
  `ProfileReads.AnswerServedIff`, `ProfileReads.RedeliveryIsIdle`).
- `saveJobs` does not enforce the size limit that `loadJobs` enforces. Ordinary creations from empty files lead to
  a list that no client can read or change any more (`CronProofs.CommitCanLockOut`). So does the removal of an account
  that a job runs under (`CronProofs.RemovedAccountLocksOut`, `CronProofs.ReadableAfterCommit`).
- The entry count of the cron file misses enabled jobs whose first schedule field starts with `#` or holds `=`
  (`CronProofs.RenderedEntries`, `CronProofs.HiddenJobUncounted`).
- A site file enabled only under another name is tested together with a temporary link, which is then removed. The
  sites left behind can fail the test. This needs a test that passes only because an entry is shown twice; for every
  other test the writes are safe (`Nginx.AliasBreaks`, `Nginx.AliasedWriteBreaksIff`, `Nginx.BlindRunsStayPassing`).
- The domain inventory skips a domain whose observation fails. A client then asks for an absent domain and is refused
  as stale although nothing changed (`DomainEnsure.FreshStaleIff`, `DomainEnsure.SkippedIsStale`).
- A terminal forwarder closes by identifier. When an identifier is opened again before the old forwarder has ended,
  that forwarder can close the new session (`Terminal.ReusedNameClosesOther`, `Terminal.ReopenSafeIff`).
- `Status` loads an operation and asks about its units later. An operation completed in between is recorded as failed
  (`AgentUpdate.CompletedBecomesFailed`, `AgentUpdate.OverwrittenIff`).
- Offsets agree between stripped and raw Go text from code positions; from a brace inside a literal they need not
  (`GoScannerProofs.LiteralOffsetDiffers`).

## Model

| member | source | states |
|---|---|---|
| `Base64Url.DecodeEncode` | cmd/hserver-agent/firewall.go:322-365 | decoding gives back every encoded byte string |
| `Base64Url.AlphabetOrder` | cmd/hserver-agent/firewall.go:322-335 | the 64 symbols in order |
| `Base64Url.GroupBigEndian` | cmd/hserver-agent/firewall.go:322-335 | three bytes become the four symbols that spell the same 24 bits |
| `Base64Url.EncodeLayout` | cmd/hserver-agent/firewall.go:322-335 | the groups stand in order without padding, and a short last one keeps two or three symbols |
| `Network.OverlapIffShared` | cmd/hserver-agent/firewall.go:299-301 | the overlap test is true exactly when some address lies in both blocks |
| `Network.ContainsIff` | cmd/hserver-agent/firewall.go:299-301 | a block holds exactly the run of addresses from its base on that its prefix leaves free |
| `Network.AddressTextUnique` | cmd/hserver-agent/config.go:666-675 | the only text read as an address is the one printed for it |
| `Network.BlockRoundTrip` | cmd/hserver-agent/config.go:666-675 | a printed block parses back to itself |
| `NetworkText.NormalizeMeaning` | cmd/hserver-agent/config.go:666-675 | normalising fails exactly on text that denotes nothing and keeps the denotation; an IPv4 block is read back and stable, the rest of a mapped network under a short prefix is dropped by the constructor |
| `NetworkText.MappedEntry` | cmd/hserver-agent/config.go:666-675 | every mapped network is accepted; it is the IPv4 block it stands for from a prefix of 96 on, and kept by the constructor exactly then |
| `NetworkText.SixWords` | cmd/hserver-agent/config.go:666-675 | eight hexadecimal words are read as their values |
| `NetworkText.SixGap` | cmd/hserver-agent/config.go:666-675 | a double colon in the middle or at the end stands for the zeros that are missing |
| `NetworkText.SixLeadingGap` | cmd/hserver-agent/config.go:666-675 | so does one at the start |
| `FirewallRule.NormalizeIsNormal` | cmd/hserver-agent/firewall.go:303-320 | an accepted rule has a known action and protocol, a fitting port, a plain comment and a canonical source text; nothing but the source changes |
| `FirewallRule.NormalizeAcceptsIff` | cmd/hserver-agent/firewall.go:303-320 | exactly which requests are accepted |
| `FirewallRule.NormalizedSource` | cmd/hserver-agent/firewall.go:303-320 | the block of an accepted rule is the one its text denotes, and there is none exactly for a mapped network under a short prefix |
| `FirewallRule.NormalizeStable` | cmd/hserver-agent/firewall.go:303-320 | a rule about an IPv4 block is not changed by normalising it again |
| `FirewallRule.FindArg` | cmd/hserver-agent/firewall.go:375-382 | the scan returns the argument after the first occurrence of the key, without quotes |
| `FirewallRule.ParsePrinted` | cmd/hserver-agent/firewall.go:322-365 | parsing the joined append arguments of a normalised rule gives the whole rule back, omitted defaults included |
| `FirewallRule.MatchesMeaning` | cmd/hserver-agent/firewall.go:322-335 | the printed options match exactly the packets from the rule's block, protocol and port |
| `FirewallRule.GuardIsExact` | cmd/hserver-agent/firewall.go:278-301 | the guard refuses a rule exactly when it is a DROP that matches some packet from a protected network to a protected port |
| `FirewallRule.ParseSources` | cmd/hserver-agent/config.go:623-645 | fails exactly on more than 32 entries or one that denotes nothing; otherwise holds the normalised text of each entry once and nothing else |
| `FirewallRule.GuardSources` | cmd/hserver-agent/firewall.go:70-77 | the constructor's loop holds exactly the IPv4 blocks among the configured texts |
| `FirewallRule.ConfiguredGuard` | cmd/hserver-agent/firewall.go:70-77 | an accepted configuration protects exactly the blocks its entries denote; an entry is left out exactly when it is a mapped network with a prefix below 96 |
| `FirewallRule.MappedSourceUnprotected` | cmd/hserver-agent/firewall.go:70-77 | a configuration of one such entry is accepted and protects nothing |
| `FirewallRule.ParsePorts` | cmd/hserver-agent/config.go:647-664 | fails exactly on more than 32 entries or one outside 1 to 65535; otherwise holds exactly the listed ports |
| `Firewall.ReadManagedLines` | cmd/hserver-agent/firewall.go:248-262 | the loop keeps exactly the managed rule lines, in order |
| `Firewall.FindTarget` | cmd/hserver-agent/firewall.go:198-213 | finds the first rule line carrying the identifier and its position, or shows there is none |
| `Firewall.ListingReadsBack` | cmd/hserver-agent/firewall.go:198-262 | a printed chain reads back as the same rules and the same managed lines |
| `Firewall.FirewallController.Add` | cmd/hserver-agent/firewall.go:126-177 | new chain, issued commands and result of the command-by-command edit, for every combination of failures |
| `Firewall.FirewallController.Delete` | cmd/hserver-agent/firewall.go:179-228 | the same for deletion, with the position counter |
| `FirewallSafety.AddEffect` | cmd/hserver-agent/firewall.go:126-177 | Add commits only on the list its client read and appends exactly one unblocked rule; all other outcomes but a failed undo keep the rules, order and unmanaged ones included |
| `FirewallSafety.AddDoneIff` | cmd/hserver-agent/firewall.go:126-177 | Add succeeds exactly when the request is admitted, names the revision of the chain, and no command on its way fails; "changed" is answered exactly on another revision than that of the lines seen |
| `FirewallSafety.DeleteEffect` | cmd/hserver-agent/firewall.go:179-228 | Delete removes exactly the first carrier of the identifier, on the list its client read exactly when the first listing succeeded; all other outcomes but a failed undo leave the host as it was |
| `FirewallSafety.DeleteDoneIff` | cmd/hserver-agent/firewall.go:179-228 | Delete succeeds exactly when the request is well formed, names the revision of the lines seen, some rule carries the identifier and nothing fails; "changed" is answered exactly on another revision |
| `FirewallSafety.StaleAdd` | cmd/hserver-agent/firewall.go:143-152 | a stale Add never changes the host and issues a command exactly when its listing fails, it names the empty list and its other tests pass |
| `FirewallSafety.StaleDelete` | cmd/hserver-agent/firewall.go:186-227 | a stale Delete issues a command exactly when its first listing fails, it names the empty list and its second listing finds the identifier; the host changes exactly when that is not undone |
| `FirewallSafety.UnreadRuleDeleted` | cmd/hserver-agent/firewall.go:186-262 | with any one managed rule in the chain and only the first listing failing, a client that names the empty list deletes it |
| `FirewallSafety.UnreadChainCreated` | cmd/hserver-agent/firewall.go:143-156 | in that situation adding any unblocked rule issues the creation of the chain |
| `FirewallSafety.SampleRule` | cmd/hserver-agent/firewall.go:303-320 | a managed rule for the two lemmas above exists |
| `FirewallSafety.SafeStep` | cmd/hserver-agent/firewall.go:126-228 | every call, with any failures, and every edit by others keeps the chain readable and its managed DROP rules off the management path |
| `FirewallSafety.ManagementPathStaysOpen` | cmd/hserver-agent/firewall.go:126-301 | after every run from a chain without managed rules, no managed DROP rule matches a packet from a protected network to a protected port |
| `ProfileMachine.DeliveryIsApplied` | cmd/hserver-agent/profile_apply.go:100-168 | the delivery of the store's method, stopped anywhere, is one run of the agent's two reads, single writes and call |
| `Profile.ProfileStore.Apply` | cmd/hserver-agent/profile_apply.go:100-168 | files, outcome and scheduling calls of one delivery, wherever it stops; the active file is never written |
| `ProfileProofs.DeliveryKeepsSound` | cmd/hserver-agent/profile_apply.go:109-167 | a delivery leaves the active file alone, writes nothing unless it stages, and keeps the files consistent wherever it stops |
| `ProfileProofs.DecisionByRevision` | cmd/hserver-agent/profile_apply.go:121-136 | on readable files, exactly which revisions are staged, answered as active, answered as pending, or superseded |
| `ProfileProofs.ReportByFiles` | cmd/hserver-agent/profile_store.go:456-492 | on readable files, exactly when each report is given and with which revision |
| `ProfileProofs.CorruptIsRefused` | cmd/hserver-agent/profile_apply.go:113-120 | unreadable files are never acted on and are reported as a failure |
| `ProfileReads.WrongReportHasRollback` | cmd/hserver-agent/profile_store.go:456-492 | in every run, exactly when an "applied" report does not carry the revision in the active file, in terms of the two files at the two reads; and then a rollback put back one of them in between |
| `ProfileReads.WrongReportIff` | cmd/hserver-agent/profile_store.go:456-492 | for every point of a run at which the active file is read and every point of its rollback at which the state file is read, exactly which "applied" reports are wrong |
| `ProfileReads.AppliedAfterRollback` | cmd/hserver-agent/profile_store.go:456-492 | a run in which a rolled back profile is reported as applied with no active file left |
| `ProfileReads.ReportsAroundRun` | cmd/hserver-agent/profile_store.go:456-492 | around a successful run a heartbeat reports a failure exactly when its reads enclose publication and confirmation, and "applied" only with the active revision |
| `ProfileMachine.RollbackPutsBack` | scripts/hserver-agent-install.sh:979-1087 | a run that fails after any step and is rolled back leaves exactly the files it had copied aside, and none of the others |
| `ProfileMachine.OrderlyRuns` | cmd/hserver-agent/profile_apply.go:109-167 | in every interleaving of single reads, writes, stops, failures and rollbacks in which a staging delivery and installer runs stay apart and copying aside does not break off, a pending state has a candidate at least as new as itself and the active profile, and the profile written last is staged or active; deliveries that stage nothing may fall anywhere |
| `ProfileMachine.OrderedAtRest` | cmd/hserver-agent/profile_apply.go:109-167 | such runs may start from any consistent files |
| `ProfileReads.StagedThoughSupersededIff` | cmd/hserver-agent/profile_apply.go:113-136 | in every interleaving, exactly when a delivery stages although the two files together forbid it, and that a publication or rollback then replaced the active file between its reads |
| `ProfileReads.ReadsAroundRun` | cmd/hserver-agent/profile_apply.go:113-136 | around a successful run a superseded revision is staged exactly when the active file is read before the publication and the state file after the confirmation |
| `ProfileReads.StaleReadStages` | cmd/hserver-agent/profile_apply.go:113-155 | such a run, ending with the superseded candidate under the newer active profile |
| `ProfileMachine.BreaksIffClash` | scripts/hserver-agent-install.sh:1014-1122 | in any state of any interleaving, exactly which next step breaks that consistency |
| `ProfileMachine.LostIffLoses` | scripts/hserver-agent-install.sh:1014-1122 | in any state of any interleaving, exactly which next step takes away the last copy of a profile |
| `ProfileMachine.RunBetweenWrites` | scripts/hserver-agent-install.sh:1090-1122 | an installer run between a delivery's two last writes leaves a pending state with no candidate |
| `ProfileMachine.RolledBackOver` | scripts/hserver-agent-install.sh:1014-1087 | a delivery after the installer's mark, then a rollback, leaves the older candidate under the newer pending state |
| `ProfileReads.AnswerServedIff` | cmd/hserver-agent/profile_apply.go:129-167 | in every run of agent and installer, a "restart scheduled" answer for a pending revision has an installer run due or under way exactly when the files were not orphaned since the last call or opening: by a stop before the call or before recording its failure, or by the end of a run |
| `ProfileReads.AccountedAtRest` | cmd/hserver-agent/profile_apply.go:129-167 | such runs may start from any files that are not pending |
| `ProfileReads.CutBeforeCall` | cmd/hserver-agent/profile_apply.go:149-167 | a delivery stopped between its pending write and its call leaves every redelivery answered "restart scheduled" with no run to come |
| `ProfileReads.RedeliveryIsIdle` | cmd/hserver-agent/profile_apply.go:121-136 | redelivering the pending or an older revision, with heartbeats and restarts in between, writes nothing and calls no installer |
| `ProfileProofs.StageThenInstall` | scripts/hserver-agent-install.sh:1090-1122 | a staged delivery and one undisturbed installer run end in a report of that revision, with the old profile kept as previous |
| `ProfileProofs.DeliveriesEnd` | cmd/hserver-agent/profile_apply.go:109-167 | the last delivery that raises the revision decides; one scheduling call per raise, no write for any other |
| `ProfileProofs.DeliveriesKeepLargest` | cmd/hserver-agent/profile_apply.go:109-167 | from a store that is not pending: pending at the largest revision above the active one, with its first delivery as candidate and one scheduling call per new maximum, or untouched |
| `ProfileProofs.OverlapLosesProfile` | scripts/hserver-agent-install.sh:1090-1122 | of whole deliveries at any point of a successful installer run, exactly which survive, which leave a pending state, and which one breaks consistency |
| `Cron.RenderJobs` | cmd/hserver-agent/cron.go:389-407 | the builder produces the rendering of the list |
| `Cron.CountEntries` | cmd/hserver-agent/cron.go:321-328 | the loop counts exactly the entry lines |
| `Cron.CronController.ApplyEdit` | cmd/hserver-agent/cron.go:92-144 | the list each closure makes of the loaded one, or not found |
| `CronMeaning.CreateMeaning` | cmd/hserver-agent/cron.go:92-109 | creating keeps the whole list and adds the job last |
| `CronMeaning.UpdateMeaning` | cmd/hserver-agent/cron.go:111-127 | updating fails exactly without the identifier, and otherwise replaces its first job and no other |
| `CronMeaning.DeleteMeaning` | cmd/hserver-agent/cron.go:129-144 | deleting fails exactly without the identifier, and otherwise takes out its first job while the others keep their order |
| `Cron.CronController.Mutate` | cmd/hserver-agent/cron.go:174-276 | both files and the result of one call, for every combination of failures |
| `CronMeaning.MutateDoneIff` | cmd/hserver-agent/cron.go:174-276 | exactly when a call commits, answers "changed" and answers "not found" |
| `CronProofs.EntryByFirstWord` | cmd/hserver-agent/cron.go:321-328 | a line counts exactly when its first word neither starts with "#" nor holds "=" |
| `CronProofs.RenderedEntries` | cmd/hserver-agent/cron.go:321-407 | the entries of a rendered file are, in order, the lines of the enabled jobs not hidden by their first schedule field; the count is right exactly when none is hidden |
| `CronMeaning.RenderedFile` | cmd/hserver-agent/cron.go:389-407 | the rendered file line by line: notice, shell, search path, and for each job an empty line, its title and a line read as its five schedule fields, its user and its command, behind a mark when disabled |
| `CronMeaning.EntriesAreJobs` | cmd/hserver-agent/cron.go:321-407 | the entries of the file are read, in order, as exactly the enabled jobs that no first schedule field hides |
| `CronProofs.HiddenJobUncounted` | cmd/hserver-agent/cron.go:321-407 | a valid enabled job whose rendered file counts no entry |
| `CronProofs.MutateEffect` | cmd/hserver-agent/cron.go:174-276 | a call commits only on the list its revision names and writes both files from it; every other outcome but a failed restore leaves both alone |
| `CronProofs.ClientsSerialize` | cmd/hserver-agent/cron.go:92-276 | for any interleaving of reads and changes with any failures, each committing event edits the list its client read, every other one leaves the list alone, the list is what the committed edits make of the first one, and the cron file shows the list made by the last event that replaced it |
| `CronProofs.FilesAgree` | cmd/hserver-agent/cron.go:237-276 | while putting the cron file back never fails, it is the rendering of the state file after every run |
| `CronProofs.CreateThenDelete` | cmd/hserver-agent/cron.go:92-144 | deletion undoes a creation, and updating a job to itself changes nothing |
| `CronProofs.ReadableAfterCommit` | cmd/hserver-agent/cron.go:214-276 | a change that commits can be read later exactly when the JSON text of the edited list is within the limit and every job's account still exists |
| `CronMeaning.StateBytesIsText` | cmd/hserver-agent/cron.go:237-242 | the size the limit is compared with is the number of bytes of the indented JSON text |
| `CronProofs.CommitCanLockOut` | cmd/hserver-agent/cron.go:214-276 | from empty files 249 valid creations with different identifiers are committed, after which no run of any clients changes the list again |
| `CronProofs.RemovedAccountLocksOut` | cmd/hserver-agent/cron.go:214-235 | one committed job whose account is removed makes the list unreadable and unchangeable for every later run |
| `Nginx.ValidText` | cmd/hserver-agent/nginx.go:344-354 | true exactly for valid UTF-8 without control characters other than newline, return and tab |
| `Nginx.NginxController.Write` | cmd/hserver-agent/nginx.go:124-236 | directories and result of replace, link, test, reload or restore; the validation link is gone afterwards |
| `Nginx.NginxController.Switch` | cmd/hserver-agent/domains.go:82-149 | directories and result of enable and disable with their undo |
| `Nginx.WriteDoneIff` | cmd/hserver-agent/nginx.go:124-185 | a write puts its content into its file, and changes nothing else, exactly when it is done or only the reload failed; it is done exactly when the request is current, nothing fails and the view written out passes |
| `Nginx.SwitchDoneIff` | cmd/hserver-agent/domains.go:82-149 | exactly when a switch is done, has nothing to do, or refuses, and the one link it changes |
| `Nginx.SwitchKeepsPassing` | cmd/hserver-agent/domains.go:82-149 | a failed switch leaves the directory as it was; a done one passes the test and changes that one name |
| `Nginx.WriteKeepsPassing` | cmd/hserver-agent/nginx.go:124-236 | a write keeps passing sites passing unless its file is enabled under another name only |
| `Nginx.AliasBreaks` | cmd/hserver-agent/nginx.go:162-236 | in every such layout some test, sensitive to the temporary link, is passed before and failed after a write reported as done |
| `Nginx.WriteSafeIff` | cmd/hserver-agent/nginx.go:124-236 | a write is safe for every test exactly when its file is not enabled under another name only |
| `Nginx.UncoveredWriteIsUntested` | cmd/hserver-agent/nginx.go:210-213 | behind a foreign entry of the same name every acceptable content is written and reported as done |
| `Nginx.RunsStayPassing` | cmd/hserver-agent/nginx.go:124-236 | passing sites stay passing through every sequence of writes and switches with any failures in which no write meets a file enabled under another name only |
| `Nginx.OwnNamesCover` | cmd/hserver-agent/domains.go:82-149 | when all links carry their own names, every run is such a sequence, and they keep their names |
| `Nginx.BlindWriteKeepsPassing` | cmd/hserver-agent/nginx.go:162-236 | for a test that never passes only because an entry is shown twice, every write keeps the sites passing |
| `Nginx.BlindRunsStayPassing` | cmd/hserver-agent/nginx.go:124-236 | for such a test passing sites stay passing through every run, aliased or not |
| `Nginx.AliasedWriteBreaksIff` | cmd/hserver-agent/nginx.go:162-236 | a write to an aliased file leaves failing sites exactly when its view passes the test with the entry shown twice and fails without |
| `DomainEnsure.RevisionIdentifies` | cmd/hserver-agent/deploy_domains.go:557-567 | equal hashed bytes mean equal text and equal enablement |
| `DomainEnsure.ManagedIffHealthy` | cmd/hserver-agent/deploy_domains.go:456-555 | a domain is observed as managed exactly with an active, enabled, owned mapping on the planned port |
| `DomainEnsure.ObservedStates` | cmd/hserver-agent/deploy_domains.go:456-555 | exactly when a domain is absent, foreign, managed or drifted, and which revision is reported |
| `DomainEnsure.UpstreamIff` | cmd/hserver-agent/deploy_domains.go:494-507 | the upstream port is that of the first line that is a loopback proxy directive with nothing but blanks around it |
| `DomainEnsure.DeployDomainController.Ensure` | cmd/hserver-agent/deploy_domains.go:138-207 | world, receipt and runtime calls of one request over the four observed states |
| `DomainEnsure.ExpectedRevision` | cmd/hserverctl/deploy.go:352-371 | the one item's revision, "absent" exactly without an item, an error exactly for duplicates or a malformed revision |
| `DomainEnsure.InventoryAnswers` | cmd/hserver-agent/deploy_domains.go:425-454 | the client's lookup in the agent's inventory yields what the agent observed of the domain, "absent" when that failed |
| `DomainEnsure.EnsureIsSound` | cmd/hserver-agent/deploy_domains.go:138-207 | success carries a healthy mapping; the runtime is called only when site file and enabled entry are both absent; no other domain's site or entry changes |
| `DomainEnsure.EnsureOkIff` | cmd/hserver-agent/deploy_domains.go:138-207 | success exactly: a change when the domain was absent and named so and the runtime left a reportable mapping, no change when there was one and its revision was named |
| `DomainEnsure.FreshStaleIff` | cmd/hserverctl/deploy.go:253-301 | a client whose inventory is still current is refused as stale exactly when that inventory had skipped a domain the target owns |
| `DomainEnsure.SkippedIsStale` | cmd/hserver-agent/deploy_domains.go:425-454 | an owned domain, an inventory that skipped it, and the refusal |
| `DomainEnsure.EnsureIsIdempotent` | cmd/hserver-agent/deploy_domains.go:138-207 | after a success, asking again from a fresh inventory changes nothing and returns the same mapping |
| `DomainEnsure.ChangedOnce` | cmd/hserver-agent/deploy_domains.go:138-207 | for any clients, any order, repeated requests and no deletion, at most one request per domain reports a change |
| `Terminal.AgentTerminalServer.Open` | cmd/hserver-agent/terminal.go:158-183 | the locked part of open: limit, duplicate, spawn failure, or a registered new process, as the step machine registers it |
| `Terminal.AgentTerminalServer.Take` | cmd/hserver-agent/terminal.go:257-269 | the locked part of closeSession is the machine's step for every thread: the caller holds the process that was registered, which putting it back would restore, and it is registered no more |
| `Terminal.AgentTerminalServer.TakeAll` | cmd/hserver-agent/terminal.go:271-279 | closeAll empties the map and visits every registered process once, as the machine's step does |
| `Terminal.RegisterEnabledIff` | cmd/hserver-agent/terminal.go:158-183 | a session can be opened exactly when fewer than eight are registered and its name is not |
| `Terminal.EverySessionAccounted` | cmd/hserver-agent/terminal.go:121-279 | in every interleaving at most eight sessions; each process is exactly one of registered, held by one closer, closed once; none is registered after the server returned |
| `Terminal.ForwardersTakeOwn` | cmd/hserver-agent/terminal.go:221-269 | while no identifier is opened again before its old forwarder has ended, no forwarder takes a foreign process |
| `Terminal.ReopenSafeIff` | cmd/hserver-agent/terminal.go:158-269 | opening a session can lead to a foreign process being taken exactly when a forwarder of that identifier lingers |
| `Terminal.ReusedNameClosesOther` | cmd/hserver-agent/terminal.go:221-269 | a run in which the forwarder of a closed session closes a later one |
| `AgentUpdate.ReadBlock` | cmd/hserver-agent/agent_update.go:495-501 | the property loop keeps the last value of each key |
| `AgentUpdate.DetachedState` | cmd/hserver-agent/agent_update.go:489-514 | conclusive and inactive exactly for two ended units; conclusive and active exactly when the first unit that has not ended is busy |
| `AgentUpdateMeaning.PropertyLine` | cmd/hserver-agent/agent_update.go:495-501 | a line sets the property it names and no other |
| `AgentUpdateMeaning.AnswerReads` | cmd/hserver-agent/agent_update.go:489-514 | the printed answer about two units is read back as those units |
| `AgentUpdate.AgentUpdateController.LoadOperation` | cmd/hserver-agent/agent_update.go:447-468 | open exactly when the marked operation is recorded as scheduled or running |
| `AgentUpdate.AgentUpdateController.Reconcile` | cmd/hserver-agent/agent_update.go:470-487 | Status closes an open operation exactly when the manager answers that no unit is left |
| `AgentUpdate.AgentUpdateController.Operate` | cmd/hserver-agent/agent_update.go:137-185 | refuses while an operation is open; otherwise creates, marks and schedules, and records a failure |
| `AgentUpdate.SoundStep` | cmd/hserver-agent/agent_update.go:108-185 | what every agent step, runner step, kill and restart keeps of marker, statuses and unit |
| `AgentUpdate.MarkerMovesOnlyWhenClosed` | cmd/hserver-agent/agent_update.go:398-468 | in every run the marker leaves only closed operations, and a runner that will still write belongs to the current, open one |
| `AgentUpdate.FailureIsFinal` | cmd/hserver-agent/agent_update.go:470-487 | the agent records a failure only when no unit of that operation is left |
| `AgentUpdate.ClosedStaysClosed` | cmd/hserver-agent/agent_update.go:571-612 | a completed or failed operation never becomes open again |
| `AgentUpdateMeaning.CompletedOnlyAfterSuccess` | cmd/hserver-agent/agent_update.go:571-612 | in every run an operation is recorded as completed only after its own installer succeeded |
| `AgentUpdateMeaning.RunnerReports` | cmd/hserver-agent/agent_update.go:571-612 | the runner reports what its installer came to and changes nothing else |
| `AgentUpdate.CompletedBecomesFailed` | cmd/hserver-agent/agent_update.go:113-116 | a whole run in which a completed operation is recorded as failed |
| `AgentUpdate.OverwrittenIff` | cmd/hserver-agent/agent_update.go:108-487 | a completed operation can still become failed exactly while a Status call is under way that loaded it before |
| `AgentUpdate.BlockedUntilRecorded` | cmd/hserver-agent/agent_update.go:108-185 | an interrupted operation stays current and blocks all others along every continuation exactly until a Status call records its failure |
| `AgentUpdate.OneStatusUnblocks` | cmd/hserver-agent/agent_update.go:470-487 | one Status call with a conclusive answer does so |
| `Archive.CleanPathParts` | cmd/hserver-agent/agent_update.go:280-356 | a relative path left alone by cleaning has canonical elements |
| `Archive.AllowedPathIsInside` | cmd/hserver-agent/agent_update.go:280-356 | an accepted path lies under the expected root, without empty, dot or parent elements |
| `Archive.PathAllowedIff` | cmd/hserver-agent/agent_update.go:280-356 | exactly which entry names are accepted |
| `Archive.ExtractWalk` | cmd/hserver-agent/agent_update.go:280-356 | passes exactly the allowed archives; always writes nothing but the three names, within their caps, and keeps the total within 512 MiB |
| `GoScanner.SkipLiteralOrComment` | scripts/test-extension-catalog.py:77-109 | skips exactly one comment or literal, stays at code, fails on an unterminated one |
| `GoScannerProofs.QuoteEndsUnescaped` | scripts/test-extension-catalog.py:97-109 | a quoted literal ends behind its first quote with an even run of backslashes before it, and does not end exactly when there is none |
| `GoScannerProofs.ScanMeaning` | scripts/test-extension-catalog.py:77-109 | the scan finds exactly the end of the comment or literal at a position, and fails exactly when there is none |
| `GoScanner.BalancedBlock` | scripts/test-extension-catalog.py:129-151 | the depth loop returns what its recursive description returns |
| `GoScannerProofs.CloseIsFirstBalance` | scripts/test-extension-catalog.py:129-151 | that is the first closing delimiter in code at which openings and closings balance, and nothing exactly when there is none |
| `GoScanner.StripComments` | scripts/test-extension-catalog.py:154-180 | the in-place overwriting computes the text with comments blanked |
| `GoScannerProofs.StripBlanksComments` | scripts/test-extension-catalog.py:154-180 | stripping fails exactly on an unterminated comment or literal, and otherwise blanks exactly the characters inside comments, newlines excepted |
| `GoScannerProofs.StripKeepsLayout` | scripts/test-extension-catalog.py:154-180 | stripping keeps length and newlines, changes characters only to blanks, and is idempotent |
| `GoScannerProofs.SameBlock` | scripts/test-extension-catalog.py:129-180 | from every code position stripped and raw text have the same matching delimiter, or neither has one |
| `GoScannerProofs.NestedCloses` | scripts/test-extension-catalog.py:129-151 | a block opened in code inside another closes inside it |
| `GoScannerProofs.BodyStrips` | scripts/test-extension-catalog.py:289-304 | a body cut out at matching braces can be stripped on its own |
| `GoScannerProofs.OffsetCarries` | scripts/test-extension-catalog.py:289-304 | a brace found in a stripped body closes inside it, and the file agrees at the shifted offset |
| `GoScannerProofs.LiteralOffsetDiffers` | scripts/test-extension-catalog.py:77-180 | from a brace inside a literal the two texts disagree |
| `JsonWalk.Walk` | extensions/catalog.go:174-230 | the walk over the decoder's tokens leaves what its recursive description leaves |
| `JsonWalk.WalkTree` | extensions/catalog.go:174-230 | on the tokens of a JSON tree the walk consumes exactly them, and succeeds exactly when no object repeats a name |
| `JsonWalk.Rebuild` | extensions/catalog.go:174-230 | whatever the walk gets past was the tokens of a duplicate-free tree |
| `JsonWalk.AcceptsIff` | extensions/catalog.go:160-230 | a token stream is accepted exactly when it is one duplicate-free value (section 4 of RFC 8259) |
| `Utf8.ValidPrefixNear` | cmd/hserver-agent/inventory.go:217-226 | a valid string has a valid prefix at most three bytes below any cut |
| `Utf8.ValidIff` | cmd/hserver-agent/inventory.go:217-226 | the valid byte strings are exactly the encodings of sequences of scalar values (section 3 of RFC 3629) |
| `Utf8.Truncate` | cmd/hserver-agent/inventory.go:217-226 | short strings unchanged; longer ones cut to their longest valid prefix (section 4 of RFC 3629), at most three bytes short for valid ones |
| `ProbePool.EverySlotFilledOnce` | cmd/hserverctl/contexts.go:227-254 | in every scheduling each index is probed once, by one worker, into its own context's slot, and the wait ends only with every slot filled |
| `ProbePool.PoolTerminates` | cmd/hserverctl/contexts.go:227-254 | every step uses up a finite measure and some step is possible until all workers have finished |

## Left out

- Firewall: iptables quoting and rewriting of arguments; the inventory of the INPUT chain; lock files beyond "the lock may fail".
- Profile: decoding of the delivered payload and the exact JSON text of the four files; a file is missing, corrupt or holds a value.
- ProfileMachine.OrderlyRuns: asks that staging deliveries and installer runs stay apart and that copying aside does not break off, because the property is false otherwise; BreaksIffClash states exactly when.
- ProfileProofs.OverlapLosesProfile: is about one whole delivery in one successful run; ProfileMachine covers single writes, several deliveries and rollbacks.
- Profile installer: the service unit it also replaces and puts back, and the waiting for the restarted service.
- Cron: immediate execution of a job, backups and their pruning, the user's own crontab, the JSON parser (a written state file reads back as its list).
- CronProofs.FilesAgree: assumes that putting the cron file back succeeds, because the files differ otherwise; ClientsSerialize says what the cron file then shows.
- Nginx: the backup file, file modes and owners, the permission flags that switch a controller off, and changes by others during a call.
- DomainEnsure: domain name normalisation, the sorting of the inventory, TLS state, health and renewal; what the runtime writes is arbitrary, and so is its success.
- GoScannerProofs.OffsetCarries: holds from code positions; no simpler exact condition is stated, because texts can also agree by accident from inside a literal.
- The catalog script's regular expressions and its comparison of registrations with the catalog.
- Terminal: input and resize apart from the session closing they can cause, the identifier pattern, message sizes and encodings, the PTY.
- AgentUpdate: release manifests, signatures, downloads, and the detail and time fields written beside a status.
- Archive: decompression, and the version and executable-format checks after the walk.
- JSON tokenising: the walk starts from the decoder's tokens.
- The panel, its HTTP interface, the request dispatcher, inventories (databases, metrics, PHP, SSL, PM2) and the flag handling, completion and printing of hserverctl.
- Secret redaction, cryptography and ELF parsing: they depend on engines outside the repository.
