# Verified model of the SSH tunnel panel

The panel manages SSH tunnels between two servers.  A *local* tunnel is a process that
keeps a pool of SSH clients and forwards TCP connections through them; a *reverse* tunnel
is an `ssh -R` unit on the other server, with byte accounting done by packet-filter rules
on this one.  Tunnels live in a JSON store, and HTTP handlers keep systemd units in step
with it.  A master panel can list the tunnels of other panels.

`dafny verify dfyconfig.toml` checks the project.

| File | Contents |
|---|---|
| `WorkerPool.dfy` | the maintainer goroutines and the shutdown sweep as a step system, one atomic access a step |
| `TunnelRunner.dfy` | on top of it: listeners, handlers, the non-atomic scan, shared counters, the stat flusher |
| `RoundRobin.dfy` | the cyclic scan and the load it gives each worker |
| `Distribution.dfy` | the load law for the interleaved scans of a run |
| `Keepalive.dfy` | when a connection is given up and how long failed dials wait |
| `Iptables.dfy` | an interpreter for rule tables: traversal, counters, and the seven commands used |
| `Listing.dfy` | the text `iptables -nvxL` prints and how a byte count is found in it |
| `Accounting.dfy`, `AccountedTraffic.dfy`, `PortMeters.dfy` | what the accounting edits do to a table holding rules of others, for every packet and every history |
| `CommandHistory.dfy` | accounting one command at a time, with failures and packets between the commands |
| `Records.dfy`, `TunnelStore.dfy` | the stored list as an ordered map; the store on the heap with its flush to disk |
| `Lifecycle.dfy` | the create, update, delete and action handlers over store and units, with failures and crashes |
| `ShellQuote.dfy` | `shellQuote`, and the two remote commands built with it, against the POSIX shell's token recognition |
| `AuthorizedKeys.dfy` | adding and removing a tunnel's line in authorized_keys |
| `UnitFile.dfy` | how systemd reads a unit file: lines, continuation, comments, sections, assignments |
| `ReverseUnit.dfy` | the unit file of a reverse tunnel, printed and read back |
| `BasePath.dfy` | `NormalizeBasePath`, once and repeated as configurations are loaded and saved |
| `Fanout.dfy` | the master's concurrent node list and its sums |
| `Options.dfy`, `Modular.dfy`, `Decimal.dfy`, `Text.dfy`, `Trimming.dfy` | optional values, remainders and 64-bit wrap-around, `%d`, splitting, joining, fields and trimming |

Results worth knowing where the code does less than one might expect:

- A scan that finds no worker proves only that each worker was unhealthy at *some* instant
  of the scan.  With one worker that is the same instant; with two or more there is always
  a run in which a healthy worker exists at every instant of a scan that finds none
  (`NilScanAlthoughSomeoneAlwaysHealthy`).
- Removing a tunnel's line from authorized_keys restores the file exactly when there is
  one, it is non-empty, ends in a newline and has neither blank lines nor the tunnel's
  marker (a lone newline also works).  If the last line lacks its newline the added key
  runs on from it and removal takes both (`UnterminatedLineLost`).
- `NormalizeBasePath` is idempotent exactly when what it leaves does not end in white
  space; `/foo / /` takes three steps.
- A reverse tunnel's unit file reads back as the tunnel's settings exactly when its fields
  are free of white space and of what systemd and ssh treat specially, its forwards'
  addresses of colons, its host of `@`, and its name, read by systemd's rules, brings no
  command of its own and does not spoil the file (`UnitReadsBack`); a name of one line
  never does.
- An update keeps every unit file owned by a stored local tunnel exactly unless it turns a
  tunnel with a unit file into a reverse one; deleting that tunnel then leaves the file,
  and the unit running, with no tunnel (`SwitchAndDelete`).
- A restarted runner finds the stat file of the one before it and starts counting at zero:
  readers can see the totals fall, with no counter wrapped, exactly when the file found
  shows traffic (`TotalsFallIff`).
- A flush that fails leaves the change in memory, so memory and disk differ until the
  next successful flush.

## Model

| member | source | states |
|---|---|---|
| WorkerPool.NextInv | internal/tunnel/runner.go:118-147 | every atomic step of every maintainer, of the shutdown sweep and of cancellation keeps the invariant tying `healthy`, `client` and client ownership to the program points |
| WorkerPool.HealthyHasOpenClient | internal/tunnel/runner.go:136-144 | a worker seen healthy has a client, and a published client is open unless the tunnel is shutting down |
| WorkerPool.OpenClientsAreOwned | internal/tunnel/runner.go:118-147 | each open client is held by exactly one maintainer and there are at most as many as workers |
| WorkerPool.NoClientLeak | internal/tunnel/runner.go:103-147 | once all maintainers have exited, the context was cancelled and every client ever dialled is closed |
| WorkerPool.NoDialAfterCancel | internal/tunnel/runner.go:118-134 | after cancellation, clients dialled plus dials in flight never grow |
| WorkerPool.ShutdownCloses | internal/tunnel/runner.go:118-147 | after cancellation the maintainers take at most eight more steps each, and when none can step every client ever dialled is closed |
| WorkerPool.SweepEnds | internal/tunnel/runner.go:103-114 | after cancellation the shutdown sweep can take a step until it is over, and takes at most two per worker and two more |
| WorkerPool.SweepCloses | internal/tunnel/runner.go:103-114 | when the shutdown sweep is over it has, at some instant after cancellation, seen each worker with no client or with one that is closed by then |
| TunnelRunner.DoInv | internal/tunnel/runner.go:76-310 | every step of maintainers, listeners, handlers, copy loops and flusher keeps the whole invariant, and recorded byte totals never fall |
| TunnelRunner.RunInv | internal/tunnel/runner.go:76-310 | the invariant holds in every state of every run |
| TunnelRunner.HandlersNeverStuck | internal/tunnel/runner.go:237-276 | a handler has a step to take until it has served its connection, found no worker or been refused by its server, and none then |
| TunnelRunner.NilScanMeansEachUnhealthy | internal/tunnel/runner.go:199-210 | a scan that returns nil had, for each worker, an instant during the scan at which that worker was unhealthy |
| TunnelRunner.HealthyThroughoutGuaranteesClient | internal/tunnel/runner.go:199-210 | one worker healthy throughout a scan guarantees the scan a client |
| TunnelRunner.ScanReturnsLiveClient | internal/tunnel/runner.go:199-210 | a client a scan returns was, when read, held by the scanned worker's maintainer alone and open unless shutting down |
| TunnelRunner.NilScanAlthoughSomeoneAlwaysHealthy | internal/tunnel/runner.go:199-210 | for every number n of workers: some run of n workers has a scan that returns nil although in each of its states some worker is healthy, iff n >= 2 |
| TunnelRunner.ClientsNeverLeak | internal/tunnel/runner.go:103-147 | ownership, the bound on open clients, and full closure after all maintainers exit, in every state of every run |
| TunnelRunner.CountersConserved | internal/tunnel/runner.go:252-275 | `conns` is the number of handlers between increment and decrement, and recorded plus pending bytes are all bytes delivered, modulo 2^64 |
| TunnelRunner.QuiescentTotals | internal/tunnel/runner.go:252-275 | with no handler in its copy phase `conns` is 0 and the counters show every delivered byte modulo 2^64 |
| TunnelRunner.StatFileWhole | internal/tunnel/stat.go:28-56 | until a runner first publishes, readers find the stat file it found at its start; from then on a complete one, with at most as many workers connected as exist and no more bytes than were delivered; what it shows is the subject of PublishedWasRead |
| TunnelRunner.PublishedWasRead | internal/tunnel/runner.go:291-309 | every snapshot published shows the two byte counters and `conns` as they stood at three instants of its own flush, in that order, after one instant for each worker in turn, and as connected exactly the number of workers healthy at theirs |
| TunnelRunner.ReadersSeeMonotoneStats | internal/tunnel/runner.go:291-309 | after a runner's first publication, and while no counter wraps, successive readers never see the byte totals fall nor the file disappear |
| TunnelRunner.TotalsFallIff | internal/tunnel/runner.go:291-309 | for every file found at the start: in some run readers see the totals fall with no counter wrapped, iff that file shows a non-zero total |
| RoundRobin.PickWorker | internal/tunnel/runner.go:199-210 | returns the client of the cyclically first usable worker from `start` on, and nil only when no worker is usable |
| RoundRobin.AcceptLoop | internal/tunnel/runner.go:219-233 | a failed accept ends the loop after cancellation and otherwise does not move the counter: the connections accepted start at 1, 2, 3 and so on |
| RoundRobin.AcceptedCounts | internal/tunnel/runner.go:219-233 | the connections accepted are those before the first failure that comes after cancellation |
| RoundRobin.GetsIffNear | internal/tunnel/runner.go:199-210 | a worker gets a connection iff the scan starts less than its gap before it |
| RoundRobin.OnlyOneGets | internal/tunnel/runner.go:199-210 | no connection goes to two workers |
| RoundRobin.OneTurnGivesGap | internal/tunnel/runner.go:199-231 | any n consecutive accepts give each usable worker exactly its cyclic distance back to the usable worker before it |
| RoundRobin.LoadLaw | internal/tunnel/runner.go:199-231 | q full turns and r further accepts give a worker q times its gap plus at most the smaller of its gap and r |
| RoundRobin.AllUsableIsFair | internal/tunnel/runner.go:199-231 | with all workers usable, m accepts give each m/n rounded down or up |
| RoundRobin.LoadsAddUp | internal/tunnel/runner.go:199-231 | with some usable worker, the loads of all workers add up to the number of accepts |
| RoundRobin.GapsSumToWorkers | internal/tunnel/runner.go:199-210 | the gaps of the usable workers add up to the number of workers |
| Distribution.ReceivedIsLoad | internal/tunnel/runner.go:199-233 | in any run whose workers stay as they are from some state on, the connections a listener accepts from there go to each usable worker exactly as Load counts, however their scans interleave |
| Distribution.RunIsFair | internal/tunnel/runner.go:199-233 | with all workers usable, m such connections give each of n workers m/n rounded down or up |
| Keepalive.Keepalive | internal/tunnel/runner.go:150-183 | the loop ends at the first close, cancellation or completed run of exactly as many failures as are set, 3 when the setting is not positive, whichever is first |
| Keepalive.Backoffs | internal/tunnel/runner.go:118-135 | the wait after the j-th failure in a row is min(2^(j-1), 32) seconds, and a success resets it |
| Keepalive.FailuresWait | internal/tunnel/runner.go:119-135 | the waits after the k failures since the last success, or the start, add up to 2^k - 1 seconds for k up to 6 and 63 + 32(k - 6) beyond |
| Decimal.ReadBack | internal/tunnel/reverse.go:324 | reading back an integer printed with `%d` gives that integer |
| Iptables.ArrivalVerdict | internal/tunnel/reverse.go:327-349 | a packet's verdict is that of the first matching rule that has one; a matching jump takes the first verdict of its chain, and without one the walk goes on behind it |
| Accounting.ChainsDistinct | internal/tunnel/reverse.go:323-325 | distinct ports and directions never share a chain name |
| Accounting.ChainsOf443 | internal/tunnel/reverse.go:323-325 | port 443 has the chains SSHTP_443_IN and SSHTP_443_OUT |
| Accounting.CommandKeeps | internal/tunnel/reverse.go:327-386 | every accounting command, on any table decorated over foreign rules, succeeds or fails as predicted and leaves it decorated over the same rules |
| Accounting.DecoratedUnique | internal/tunnel/reverse.go:327-386 | the foreign rules and the decoration determine the table |
| AccountedTraffic.PacketTransparent | internal/tunnel/reverse.go:327-349 | a packet meets the verdict of the foreign rules alone, counts on them as it would without accounting, and on the accounting rules as metered |
| PortMeters.EnsurePortMeans | internal/tunnel/reverse.go:327-349 | ensuring a port adds its missing counters and jumps in both directions and touches nothing else |
| PortMeters.RemovePortMeans | internal/tunnel/reverse.go:374-386 | removing a port takes its accounting out of both directions and touches nothing else |
| PortMeters.EnsureRemoveIsIdentity | internal/tunnel/reverse.go:327-386 | ensuring then removing a port that was not accounted restores the table, rules and counters |
| PortMeters.EnsureIdempotent | internal/tunnel/reverse.go:327-349 | ensuring again changes nothing, counters included |
| PortMeters.HistoryTransparent | internal/tunnel/reverse.go:323-386 | over any history of ensures, removes and packets in, out and through, every verdict is that of the foreign table alone |
| Listing.IptChainBytes | internal/tunnel/reverse.go:355-372 | the scanning loop returns the count of the first line that has one, 0 when none has or iptables failed |
| Listing.ScanReads | internal/tunnel/reverse.go:365-366 | scanning a word takes the decimal number it starts with, and leaves 0 where there is none or it exceeds 64 bits |
| Listing.ListingScans | internal/tunnel/reverse.go:355-372 | listing a chain of RETURN rules, in any layout, and scanning the text gives the bytes of the first rule |
| PortMeters.HistoryCounts | internal/tunnel/reverse.go:323-386 | after any history the count scanned from the listing of a port's chain is exactly the length of the TCP packets to it (for the other chain, from it) since it was last freshly ensured, modulo 2^64, and each ensured valid port has exactly one jump |
| AccountedTraffic.ForwardTransparent | internal/tunnel/reverse.go:327-349 | a forwarded packet meets the verdict of the foreign rules and moves no meter |
| CommandHistory.CommandsTransparent | internal/tunnel/reverse.go:327-386 | over any sequence of single accounting commands, each failing or not, and packets in, out and through between them, every verdict is that of the foreign table alone |
| CommandHistory.CommandsCount | internal/tunnel/reverse.go:323-386 | after any such sequence the count scanned for a port is the length of its packets, each times the jumps there were when it arrived, since the counter was last set to zero |
| PortMeters.Host.IptEnsure | internal/tunnel/reverse.go:327-349 | performs the ensure edit when iptables works; whichever commands fail, the table stays decorated over unchanged foreign rules |
| PortMeters.Host.IptRemove | internal/tunnel/reverse.go:374-386 | performs the remove edit under the same guarantee |
| PortMeters.Host.IptRead | internal/tunnel/reverse.go:351-372 | returns the counters kept for the port in both directions where iptables runs, and otherwise those or 0 |
| Records.ListRefinesMap | internal/store/store.go:209-251 | under every sequence of adds with fresh ids, updates and deletes, the list behaves as an insertion-ordered map |
| Records.StaysSorted | internal/store/store.go:183-223 | with a clock that never runs backwards the list stays sorted by creation time |
| Records.UpdatedLookup | internal/store/store.go:226-238 | an update changes one entry only, keeps its creation time and every entry's place |
| Records.DeletedLookup | internal/store/store.go:241-251 | a delete removes exactly one entry and keeps ids unique |
| TunnelStore.CrashRecovers | internal/store/store.go:123-133 | over a whole run, each state of the disk shows exactly what the last successful flush wrote or all that the flush in progress was writing |
| TunnelStore.CrashAndOpen | internal/store/store.go:104-133 | dying in any state the disk went through and opening again gives a store with exactly those contents, and opening succeeds when the file exists and can be read |
| TunnelStore.Store.Perform | internal/store/store.go:209-251 | any run of adds, updates and deletes on the heap store, flushes failing or not, ends with the contents of the list model, and with fresh ids of the insertion-ordered map |
| TunnelStore.Store.Push | internal/store/store.go:217 | append in place or into a larger array adds one tunnel at the end and keeps the others |
| TunnelStore.Store.Cut | internal/store/store.go:246 | the in-place shift removes exactly the tunnel at one position and keeps the order of the others |
| TunnelStore.Store.Flush | internal/store/store.go:123-133 | on success the file holds the whole store, on failure what it held before, and at no step anything else |
| TunnelStore.Store.Open | internal/store/store.go:104-120 | loads exactly what a readable file holds, creates an empty store when there is none, and fails on a torn file without touching it |
| TunnelStore.Store.List | internal/store/store.go:183-193 | fresh copies, a permutation of the stored tunnels sorted by creation time |
| TunnelStore.Store.Get | internal/store/store.go:196-206 | a fresh copy of the first tunnel with the id, or not found |
| TunnelStore.Store.AddTunnel | internal/store/store.go:209-223 | appends a copy with its id and creation time; memory changes even if the flush fails, disk only if it succeeds, as it does on a reliable disk |
| TunnelStore.Store.UpdateTunnel | internal/store/store.go:226-238 | replaces the first tunnel with the id keeping place and creation time, or not found and nothing changes |
| TunnelStore.Store.DeleteTunnel | internal/store/store.go:241-251 | removes the first tunnel with the id, the later ones moving up, or not found and nothing changes |
| Lifecycle.Panel.ApplyLocal | internal/tunnel/manager.go:72-87 | on success the unit file exists, is loaded, and an enabled tunnel's unit runs with the stored settings and starts on boot, a disabled one's is stopped and, when no command failed, does not start on boot; it fails only when one of its effects does; no other unit is touched |
| Lifecycle.Panel.RemoveLocal | internal/tunnel/manager.go:95-102 | when none of its effects fails the unit is stopped, disabled, its stat file gone and systemd reloaded; the unit file is gone unless its deletion failed, which alone leaves it as an orphan; no other unit is touched |
| Lifecycle.Panel.Create | internal/web/web.go:534-568 | a create failing in key resolution leaves the stored list as it was; a successful one stores the body's settings with the resolved keys, and its local unit follows it as for ApplyLocal; a valid one fails only when an effect does; every state on the way is good |
| Lifecycle.Panel.Update | internal/web/web.go:570-602 | a successful update stores the body's settings with the resolved keys, keeps place and creation time, and its local unit follows it, a reverse one's is untouched; a valid one fails only when an effect does; where all unit files were owned they stay so iff it does not turn a tunnel with a unit file reverse; every state on the way is good |
| Lifecycle.Panel.Delete | internal/web/web.go:604-617 | removes exactly this tunnel, its unit file before its record; when no effect fails a local unit is stopped, disabled and its stat file gone; where all other unit files were owned all are iff this one's is gone; a reverse tunnel's units are not touched; every state on the way is good |
| Lifecycle.Panel.Action | internal/web/web.go:619-651 | start and stop store the flag and the local unit follows it; restart leaves the store alone and runs the unit with the stored settings whatever the flag says; it fails only when an effect does |
| Lifecycle.Panel.Answer | internal/web/web.go:534-651 | each request ends with the status due to it, or where success is due with another only after one of its effects failed, which does not happen where effects are reliable, and a successful one changes the stored list as it says |
| Lifecycle.Panel.Take | internal/web/web.go:534-651 | a request is answered in full, or cut short by a crash after the given number of its effects; then the panel restarts from the disk of that instant; every state on the way is good and the panel settled |
| Lifecycle.Panel.Serve | internal/web/web.go:534-651 | over any run of serial requests with crashes inside or between them every state is good: each local unit file but the recorded orphans belongs to a stored local tunnel, in memory and, unless the last flush failed, on disk; and unless an update turned a tunnel with a unit file reverse, no state without a fault before it has orphans |
| Lifecycle.UpdateKeeps | internal/web/web.go:570-602 | replacing a record keeps every local unit file but the orphans owned by a stored local tunnel, in memory and on disk |
| Lifecycle.DeleteKeeps | internal/web/web.go:604-617 | so does deleting the record of a tunnel without unit file |
| Lifecycle.Panel.SwitchAndDelete | internal/web/web.go:476-489 | an update that turns a tunnel with a unit file reverse, followed by its delete, leaves the file, and the unit active if it was, without a stored tunnel |
| ShellQuote.QuoteReadsBack | internal/sshx/sshx.go:240-242 | wherever a quoted string stands outside other quotes, the shell reads exactly that string as part of the current word, unless it holds a NUL |
| ShellQuote.QuoteRoundTrip | internal/sshx/sshx.go:240-242 | tokenising the quoted forms joined by blanks gives back the list of strings, iff none holds a NUL |
| ShellQuote.RenderReads | internal/sshx/sshx.go:170-174 | any command written from plain words, quoted strings, home paths and operators reads as exactly those tokens, iff no quoted string holds a NUL |
| ShellQuote.WriteCommandMeans | internal/sshx/sshx.go:217-219 | for every NUL-free path the remote write command is exactly its eleven intended tokens |
| ShellQuote.InstallCommandMeans | internal/sshx/sshx.go:170-174 | for every NUL-free key line the install command is exactly its nineteen intended tokens, looking for and appending that line |
| AuthorizedKeys.RemoveIranAuthorizedKey | internal/tunnel/reverse.go:222-236 | the loop keeps, in order, the lines that are neither blank nor marked, each ended by a newline, and leaves an unreadable file alone |
| AuthorizedKeys.RemovedLines | internal/tunnel/reverse.go:228-235 | a non-blank line is in the file after removal iff it was before and lacks the marker |
| AuthorizedKeys.EnsureAuthorizes | internal/tunnel/reverse.go:208-219 | after ensure the file holds the key; where it did not, exactly one line with the tunnel's marker is appended |
| AuthorizedKeys.EnsureRemoveIdentity | internal/tunnel/reverse.go:198-236 | remove after ensure is the identity iff the file exists and is canonical; a missing file becomes a lone newline |
| AuthorizedKeys.UnterminatedLineLost | internal/tunnel/reverse.go:208-235 | for a file without the key, remove after ensure keeps what removal keeps of the newline-terminated lines, and loses an unterminated last line |
| AuthorizedKeys.EnsureTwice | internal/tunnel/reverse.go:208-219 | a second ensure changes nothing |
| AuthorizedKeys.OtherTunnelKept | internal/tunnel/reverse.go:228-235 | removing a tunnel keeps another's line in the file iff the removed marker does not occur in the other's marker |
| AuthorizedKeys.SameLengthIds | internal/store/store.go:339-343 | between ids of one length, as generated ones are, one marker occurs in the other iff the ids are equal |
| UnitFile.BlanksDoNotCount | internal/tunnel/reverse.go:103-116 | in a unit file white space before a key and around its `=` makes no difference to what systemd reads |
| UnitFile.CommentsDoNotCount | internal/tunnel/reverse.go:103-116 | a comment line, after blanks or within a continued line, makes no difference to what systemd reads |
| UnitFile.ContinuedLine | internal/tunnel/reverse.go:103-116 | a line ending in one backslash goes on in the next, read behind it and a blank; two backslashes end it |
| ReverseUnit.BuildUnit | internal/tunnel/reverse.go:72-116 | the argument slice grown step by step is the specified list, inside the unit template |
| ReverseUnit.UnitReadsBack | internal/tunnel/reverse.go:72-116 | for every tunnel, systemd and ssh read from its unit file exactly what its settings mean, iff its fields are readable: port 22, user root, interval 30 and count 3 where none is set, the key and known-hosts files of its id, the options of the command and every forward in order |
| ReverseUnit.UnitReadsAs | internal/tunnel/reverse.go:72-116 | with plain fields the unit has one command unless the name, by systemd's rules, brings another or spoils the file, and it reads back all settings with the login split at the last '@' |
| ReverseUnit.OneLineNameIsQuiet | internal/tunnel/reverse.go:103-116 | a name of one line brings no command |
| ReverseUnit.ReadIsPlain | internal/tunnel/reverse.go:72-116 | whatever the text of a unit, what is read from it is plain: no white space or special characters, no '@' in the host, no colon in an address |
| ReverseUnit.SpecReadsBack | internal/tunnel/reverse.go:98-100 | a -R argument reads back its ports and target, listening on 0.0.0.0, iff the target holds no colon |
| BasePath.NormalizeShape | internal/config/config.go:94-102 | the result is empty or has exactly one leading slash and no trailing one |
| Text.SpaceCharacters | internal/config/config.go:96 | white space is exactly the 25 characters of Unicode's White_Space property |
| BasePath.NormalizeOf | internal/config/config.go:95-102 | any cut of a text into blanks, slashes, core, slashes and blanks gives the core behind one slash |
| BasePath.IdempotentIff | internal/config/config.go:95-102 | normalising twice is normalising once iff what the first leaves does not end in white space |
| BasePath.NoBlanksIdempotent | internal/config/config.go:95-102 | on text without white space normalisation is idempotent |
| BasePath.ShortensOrStays | internal/config/config.go:91-102 | after the first step each further one strictly shortens the path or has reached the fixed point |
| BasePath.RepetitionConverges | internal/config/config.go:75-102 | from any text, more steps than it has characters arrive at a fixed point, given in closed form |
| BasePath.OneStepNotEnough | internal/config/config.go:95-102 | `/foo / /` takes three steps to `/foo` |
| Fanout.Summarize | internal/web/master.go:92-122 | totals are the sums modulo 2^64 over tunnels with a status, or one of three errors with zero totals |
| Fanout.SummaryOfOne | internal/web/master.go:107-120 | a tunnel counts as active exactly when its status says `active`, and adds its own byte counts and connections |
| Fanout.SummaryIgnoresOrder | internal/web/master.go:107-120 | a summary does not depend on the order of the tunnels |
| Fanout.SummarySane | internal/web/master.go:92-122 | never more active tunnels than tunnels, and an offline node counts nothing |
| Fanout.AnswerIsSequential | internal/web/master.go:75-90 | under every schedule the list sent is, node by node in order, that node's view without its token |
| Fanout.NeverStuck | internal/web/master.go:75-90 | the wait counter is never negative, and until the answer is complete some goroutine can move |
| Fanout.AnsweredAfter | internal/web/master.go:75-90 | no schedule has more than five steps per node, and the answer is complete after exactly so many |
| Fanout.GoOn | internal/web/master.go:75-90 | every schedule so far goes on to one of that length |
| Fanout.AnswerComes | internal/web/master.go:75-90 | for any nodes and responses some schedule completes the answer |

## Left out

- SSH handshakes, ciphers, key generation, host keys, password hashing: library code; a dial succeeds or fails arbitrarily and keys are opaque texts.
- Socket options, journal output, `ss` scanning, GatewayPorts probing and sshd reload: their behaviour lies outside the files.
- HTTP routing, cookies, proxying, JSON text, static files, install scripts and the command line: plumbing; JSON encoding and decoding are taken to be inverse, and a torn file not to parse.
- `Run` starts all workers before the modelled run begins, and its return on a failing listener is not modelled.
- The `int` counters `rr` and `conns` are unbounded in the model, as are the `int` sums of a node summary.
- TunnelRunner.ReadersSeeMonotoneStats: one flusher at a time; the final flush of `Run` may overlap one of `statLoop`, and both use the same temporary file.  After 2^64 bytes the counters wrap.
- TunnelRunner.StatFileWhole: under the same assumption.
- Distribution.ReceivedIsLoad: the workers stay as they are during the accepts counted; scans over changing workers are covered by the results of TunnelRunner.
- PortMeters.HistoryCounts: the length limit of chain names is not modelled; the foreign rules name no SSHTP_ chain; columns of a listing after the target are arbitrary text of one line.
- RoundRobin.PickWorker: the pool does not change during the scan; scans step by step are the subject of TunnelRunner and Distribution.
- Tunnels sharing a listen port: removal is per port, so removing one stops the accounting of the other, as HistoryCounts says.
- TunnelStore.Store.List: the copies share the backing array of `Forwards` with the store; records are values here.
- Lifecycle.Panel.Serve: a create whose generated id is already taken is refused.
- Users and nodes of the store: same shape as tunnels.
- Power loss without fsync, other processes writing the same store, and several API requests at once on one tunnel: the code does not coordinate them.
- Records.ListRefinesMap: generated ids are taken to be fresh; eight random hex digits can collide.
- Lifecycle.Panel.Update: a tunnel with a unit file that turns reverse is recorded as an orphan, as are a unit file that cannot be deleted and one whose tunnel a crash lost after a failed flush; nothing is promised of orphans.
- The flush appears as one step that succeeds or fails in Lifecycle, whose subject is the units; its own steps are those of TunnelStore.
- Lifecycle.Panel.Create: the branches of key resolution, input clamping, validation and field copying are not modelled: resolution fails or yields some keys, and input arrives validated.
- The kharej side of reverse tunnels (its unit state over SSH): applying or restarting a reverse tunnel succeeds or fails without local effect.
- ShellQuote.WriteCommandMeans: what the commands then do to the remote file system.
- ShellQuote.InstallCommandMeans: the same; a leading `~/` is kept as such, its expansion being the shell's.
- AuthorizedKeys.EnsureRemoveIdentity: the key is one line and file permissions and failing writes are not modelled.
- ReverseUnit.UnitReadsBack: the listen address of a forward is replaced by 0.0.0.0 and not recovered; the reader of commands does not know quoting, specifiers or bracketed addresses, and refuses such texts; of the settings a name could bring only commands are read.
- BasePath.RepetitionConverges: texts are sequences of Unicode code points; invalid UTF-8 is not modelled.
- Fanout.AnswerIsSequential: each node's response is given; timeouts are one of the responses.
