# A verified model of stop-bots

stop-bots turns bots away from web servers. It rewrites Apache configuration files, shows what it
changed as a unified diff, contains hosts that connect out to listed addresses, reads access logs
for attackers, and makes sure that one apply runs at a time. This project models those five parts in
Dafny and proves what each promises over every input and every run.

## The parts

**The patience diff** (`EditScript`, `Anchors`, `PatienceDiff`, `Hunks`, `UnifiedDiff`,
`DiffSummary`, from `src/diff.rs`). Lines are opaque values. A script is a list of kept, deleted and
inserted lines that spells out both files. The diff pushes operations onto a shared list, fills its
table in place and walks it; the lemmas say that what it pushes is always a script, and the smallest
one where the source can promise that. The printed diff, read the way `patch` reads one, turns
either side into the other, and so does its text exactly when no printed line ends in a carriage
return; its header is the one of the unified format of the POSIX `diff` utility (IEEE Std 1003.1,
"Diff -u or -U Output Format").

**The Apache block** (`ConfText`, `ConfWords`, `ConfHosts`, `BlockConfig`, `RewriteProgram`,
`RewriteDecision`, `BlockText`, `RewriteReader`, `OwnBlock`, `BlockEdits`, `ApplyBlocks`,
`ApplyTheorems`, `BlockRemoval`, `ApplyStatus`, `ApplyAgain`, `SiteBlocks`, from `src/apache.rs`). One half is a compiler: a
site's settings become an ordered `mod_rewrite` program, whose evaluator follows `[OR]` chains,
`[L]`, `[NS]` and the environment flag. The other half is editing text that is read again after
every edit: a file is split into logical lines and those into hosts, with whatever is nested, left
open or edited by hand in them. `SiteBlocks` joins the halves: what the file an apply writes answers
in every host, in terms of the site's own settings. Three more theorems rest on it: removal is the exact inverse of applying,
the last apply wins, and a site is up to date exactly when an apply would change nothing. The last
one holds of every file: if a step changes the text, no later step can change it back.

**Containment** (`Containment`, `Breaker`, `Guard`, from `src/contain.rs`). The state is the rows of
the database, the live firewall's sets, the paused containers and the breaker. `Guard` holds it in a
class changed in place; the other two describe each operation and prove what every run keeps.

**Access logs** (`LogLines`, `TurnedAway`, `Survey`, `Injections`, from `src/accesslog.rs`): lines
printed by NGINX read back; a survey kept up line by line is the two-pass report of the log, in any
order of its lines; and remembered verdicts change nobody's conviction.

**The apply lock** (`ApplyLock`, from `src/applylock.rs`): a state machine of the atomic steps of
any number of threads, with taking the lock and setting the depth, and lowering the depth and
closing the file, as separate steps.

## What is assumed

- `RewriteProgram.Lawful` is what is taken from PCRE: a valid regex means what its tokens are and
  what a group around it means, regexes joined with `|` match what any of them does, a regex
  that says a text character for character matches that text ignoring case, and the six fixed regexes of the source
  mean what they say. A usable pattern is one the source's own check accepts; that check refuses back
  references, inline options and the escapes the laws would not hold of.
- The directory of a plain `robots.txt` path has no line break in its name (`OwnBlock.SaneEnv`).
- Which configuration surrounds a file (modules loaded, main `Protocols`), whether the trust file is
  current, what a regex list or a feed says, and how an address or a time stamp reads, are inputs.
- Firewall calls succeed. A row opened by a pass is dated with that pass's time. Addresses are in
  canonical form, and IPv4 and IPv6 share one set.

## Where the code and its words differ

- `counts` (`src/diff.rs:293-303`) is exact only when no added line starts with `++` and no removed
  one with `--`; the model follows the code and proves exactly that.
- The notice about a final line break (`src/diff.rs:59-81`) is printed whenever the two line lists
  are the same. It is true if and only if both files are there and the same lines of both end in
  `\r\n`: `str::lines` drops carriage returns as well, and a missing file has the lines of an empty
  one.
- Applying is called idempotent (`src/apache.rs:1236`). A host that no block is written into any
  more and that holds two sections loses one at each apply; `ApplyAgain` proves that this is the
  only case, and shows such a file.
- A printed line that ends in a carriage return, of a file with `\r\r\n` in it say, is not read back
  as written, so such a diff does not apply (`src/diff.rs:255-289`, with `patch` at
  `src/diff.rs:312-337`).
- `release` (`src/contain.rs:816-818`) is described as unpausing a container this paused; the code
  unpauses any container whose containment says pause, one paused before it included.
- `hold_at` (`src/applylock.rs:139-143`) lets an apply proceed without the lock when the lock file
  cannot be opened, as it says; the exclusion theorem is stated with and without that.

## Model

| member | source | states |
|---|---|---|
| EditScript.ScriptKeepsAtMostLcs | src/diff.rs:201-231 | no script for a window keeps more lines than a longest common subsequence, and a script's deletes plus inserts are what its kept lines leave over |
| EditScript.LcsScriptIsMinimal | src/diff.rs:98-142 | a script that keeps a longest common subsequence has no cheaper rival |
| EditScript.LcsLastLine | src/diff.rs:106-116 | two ranges ending in the same line share it in a longest common subsequence, although the recurrence only looks at first lines: what makes stripping a suffix safe |
| Anchors.PartitionPoint | src/diff.rs:175-198 | the binary search splits the tails at the first that is not below the index |
| Anchors.LongestIncreasing | src/diff.rs:175-198 | the result is a subsequence of the pairs, strictly increasing in the second index, and no such subsequence is longer |
| Anchors.UniquePairs | src/diff.rs:146-165 | exactly the pairs of a line that occurs once in each range, in the order of the old one, whatever order the map yields them in |
| Anchors.UniqueAnchors | src/diff.rs:146-171 | the anchors are a chain of unique pairs rising on both sides, no chain is longer, and there are none exactly when no line is unique in both ranges |
| PatienceDiff.TableBounds | src/diff.rs:201-217 | no entry of a filled table exceeds the shorter range, and under the guard the table has at most 2*250,000+2 cells, so `u32` entries never overflow |
| PatienceDiff.FillTable | src/diff.rs:201-215 | every cell of the table filled in place is the longest common subsequence from there on, within those bounds |
| PatienceDiff.LcsDiff | src/diff.rs:201-231 | pushes a script for the two ranges with exactly as many kept lines as their longest common subsequence, which deletes first wherever inserting first would not keep more |
| PatienceDiff.PushPrefix | src/diff.rs:98-116 | pushes the common prefix and leaves a window whose longest common subsequence is smaller by exactly that |
| PatienceDiff.StripSuffix | src/diff.rs:98-116 | sets the common suffix aside and leaves a window whose longest common subsequence is smaller by exactly that |
| PatienceDiff.DiffBetween | src/diff.rs:130-140 | every anchor is kept, each stretch between anchors is diffed in the same way on a strictly smaller window, and the whole is a script |
| PatienceDiff.DiffRange | src/diff.rs:98-142 | terminates; what it pushes spells out the old range in order and the new range in order, with equal lines wherever it keeps one; it keeps every line both ranges start and end with, then every anchor of a longest chain of unique lines with the same again between them, replaces what it must, and keeps a longest common subsequence where there is no unique line and the table fits |
| PatienceDiff.AnchorsAreKept | src/diff.rs:98-142 | so it keeps what is stripped and at least as many lines between as any chain of unique lines has |
| PatienceDiff.DiffLines | src/diff.rs:92-96 | the script for two whole files, minimal where that condition holds, and all kept when they are equal |
| Hunks.FindHunks | src/diff.rs:236-253 | hunks come in order, apart from each other, cover every change, leave only kept lines outside, have exactly min(3, available) lines of context at each end, and hold no seven kept lines in a row between changes |
| Hunks.EveryChangeInOneHunk | src/diff.rs:236-253 | every change is in one hunk and no other |
| Hunks.NoLinesMeansEmptyFile | src/diff.rs:270-274 | a side with no lines in a hunk is an empty file, as the `0,0` header assumes |
| UnifiedDiff.WriteHunk | src/diff.rs:255-289 | adds the hunk's header and body, a line break after each line, to the text that is there |
| UnifiedDiff.HeaderReadsBack | src/diff.rs:270-281 | the printed header gives each side its start and length back |
| UnifiedDiff.HeaderNumbers | src/diff.rs:255-281 | the numbers of a hunk's header are where it starts on each side and how many lines it has there |
| UnifiedDiff.DiffApplies | src/diff.rs:312-337 | applied with only its headers and bodies, as `patch` does, a diff turns old into new; read the other way it turns new into old |
| UnifiedDiff.TextApplies | src/diff.rs:312-337 | so does its text, split into lines again, if and only if no line it prints ends in a carriage return |
| UnifiedDiff.PatchedTexts | src/diff.rs:59-81 | of two texts without carriage returns, the text of their diff turns each into the other, character for character but for a final line break that was not there |
| UnifiedDiff.NoChangeMeansSame | src/diff.rs:59-81 | a script with nothing but kept lines is one for equal line lists |
| UnifiedDiff.Unified | src/diff.rs:59-81 | the text is empty exactly when both sides are the same; the notice when only their line lists are; otherwise that of a patience diff, minimal where that is exact, under labels that say which file is missing; it patches each side into the other, and so does the text, with labels of a line each, exactly when no printed line ends in a carriage return, as none does where no line of either side does |
| DiffSummary.CountsAreExactUnlessHidden | src/diff.rs:293-303 | the counts read off a diff's text are the script's insertions and deletions if and only if no added line starts with `++` and no removed one with `--` |
| DiffSummary.Counts | src/diff.rs:293-303 | the fold over the lines of the text is the sum those theorems are about |
| DiffSummary.AnAddedLineNotCounted | src/diff.rs:295-295 | an input where they are not: the diff of a file that gains one line `++b` has one insertion and is counted as adding and removing nothing |
| DiffSummary.NoticeIsTrueExactly | src/diff.rs:59-81 | when the notice is printed, the two sides differ in the final line break alone if and only if both are there and the same lines of both are ended by `\r\n` |
| DiffSummary.NoticeMissesAReturn | src/diff.rs:59-81 | inputs where it is wrong: a carriage return before a line break on one side only |
| DiffSummary.NoticeMissesAMissingFile | src/diff.rs:59-81 | and another: a missing file against an empty one |
| Text.LinesOfUnlines | src/diff.rs:59-81 | lines written out read back as themselves exactly when none ends in a carriage return |
| Text.FinalBreakAlone | src/diff.rs:59-81 | two different texts with the same lines differ in the final line break alone if and only if the same lines of both are ended by `\r\n` |
| ConfText.Lines | src/apache.rs:220-246 | the loop over physical lines finds the logical lines, joined where one ends in a backslash, with their places |
| ConfText.LogicalOfRaw | src/apache.rs:220-246 | well-formed logical lines written out read back as themselves |
| ConfText.RawOfLogical | src/apache.rs:220-246 | a text's logical lines, written out, are the text, character for character |
| ConfText.LinesJoin | src/apache.rs:220-246 | a line that ends in a backslash, whatever carriage returns come after it, goes on with the next without that backslash, and any other line ends there |
| ConfWords.SplitWords | src/apache.rs:293-320 | the scan over characters yields the words of a directive |
| ConfWords.ConfQuotedIsOneWord | src/apache.rs:1040-1042 | every text, quoted for the core, reads as the one word it is |
| ConfWords.EitherQuoteReads | src/apache.rs:293-320 | a text between quotes of either kind is one word, blanks and the other quote included |
| ConfWords.RewriteQuoted | src/apache.rs:1014-1035 | the loop writes the grouped, quoted body of a regex |
| ConfWords.RewriteBodyKeepsTokens | src/apache.rs:1014-1035 | the written body is the same sequence of regex tokens, a quote being a quote however it is written |
| ConfWords.RewriteQuotedMeansTheRegex | src/apache.rs:1014-1035 | no quote is left inside the argument; and the closing bracket closes the group if and only if the regex has no dangling backslash |
| ConfHosts.VirtualHosts | src/apache.rs:357-429 | the one-pass scan finds the hosts of the file's pieces: names, TLS, addresses, directives, server scope, and where each starts and ends |
| ConfHosts.HostSays | src/apache.rs:412-429 | a host's first name, its aliases, and that it is taken for a TLS one when an address of its is on port 443 or some line switches the engine on |
| ConfHosts.ServerNameIs | src/apache.rs:412-429 | the first server name that has an argument is the host's |
| ConfHosts.BareNameReads | src/apache.rs:338-355 | a name is read the same with a port, a scheme or both |
| ConfHosts.ScopeOfLine | src/apache.rs:268-288 | a line sets something for the host exactly when every section it is in only decides whether it is read |
| ConfHosts.FlattenPieces | src/apache.rs:357-410 | a file is its hosts and the lines between them, with nothing lost, whatever is nested or left open |
| ConfHosts.SolidPrefix | src/apache.rs:357-410 | what comes later in a file never changes what the scan has made of its beginning |
| BlockConfig.ChunkPatterns | src/nginx.rs:1055-1069 | joins patterns into chunks as the grouping function says |
| BlockConfig.GroupsKeepPatterns | src/nginx.rs:1055-1069 | the chunks hold every pattern once, in order, and only a pattern too long by itself makes a chunk too long |
| RewriteDecision.GroupedMeans | src/apache.rs:1004-1035 | a regex quoted and grouped matches what the regex matches |
| RewriteProgram.EscapedIsLiteral | src/db.rs:4165-4188 | an escaped text is a regex that says it: every operator is escaped, and nothing else is |
| RewriteDecision.ChunksMatch | src/nginx.rs:1055-1069 | chunks match together exactly what their patterns match, anchored or not |
| RewriteDecision.ExemptionsMatch | src/nginx.rs:1767-1787 | the exemption regexes match exactly the paths under one of the valid prefixes, and the exact path |
| RewriteDecision.ChainHolds | src/apache.rs:1167-1198 | conditions joined by `[OR]` hold when any one of them does |
| RewriteDecision.BlockDecides | src/apache.rs:1093-1164 | run on the client's request, the compiled rules serve the generated `robots.txt` first, and otherwise deny, with the configured status, exactly when a pattern or a request rule matches, or the flag was set before them, and no exempt path, no exemption of a user agent with any of its paths and no trust clears it |
| RewriteDecision.NoBlockBlocksNothing | src/apache.rs:1093-1101 | no block is written only when there is nothing to block or serve |
| RewriteDecision.FirstRoundDecides | src/apache.rs:51-63 | over the request and any internal redirects and subrequests after it, only the first round decides, whatever the later paths and flags |
| SiteBlocks.HostBlockDecides | src/apache.rs:1093-1209 | the block written into a host answers every request of a client as the site's own settings say for a host with TLS, or without: request rules that need TLS count only with it, and certificate renewal gets through where any request rule is left |
| SiteBlocks.BlockIsWritten | src/apache.rs:1093-1101 | a host gets a block exactly when a pattern can be written, a request rule is left, or a `robots.txt` is served |
| SiteBlocks.RefusalMeans | src/apache.rs:940-1000 | it is refused exactly when the HTTP/1.x rule would turn away everyone, or the host's last word is `RewriteEngine Off` |
| SiteBlocks.ApplyIsRefusedWhen | src/apache.rs:1281-1323 | an apply is refused exactly when some host must not be written what it is to get |
| SiteBlocks.WrittenFileDecides | src/apache.rs:1238-1323 | in the written file every host has, in the place of its section or in front of its lines if it has none, a block that answers as the settings of the first site of its name say, or the default ones; hosts of other sites and all other lines are as they were |
| SiteBlocks.LocatedMeans | src/apache.rs:1222-1233 | a section runs from the first line that is the opening marker to the first closing one from there on |
| SiteBlocks.SurvivesWhen | src/apache.rs:1044-1053 | a regex may be written exactly when nothing in it starts a substitution and no character is a control character |
| BlockText.WriteBlock | src/apache.rs:1093-1164 | the string the block is built up in is the text of the compiled program |
| BlockText.AgentExemptionClears | src/apache.rs:1172-1198 | the loop over runs of one user agent writes the rules that clear its paths |
| RewriteReader.BlockReadsBack | src/apache.rs:1093-1164 | the block's lines, read by `mod_rewrite`'s own rules for arguments, are exactly the compiled program: variables, patterns, flags, targets and order |
| RewriteReader.SeenDecidesRun | src/apache.rs:1064-1164 | programs that read alike run alike, for every request |
| OwnBlock.CompiledIsOwn | src/apache.rs:349-356 | the reader takes a written block for whole lines from the first marker to its only closing one, which open and close no host, leave the sections around them alone and say nothing of a host's name, TLS or HTTP/2 |
| BlockEdits.LocatedIn | src/apache.rs:1220-1233 | the section located by offsets in the text is the one located in the host's own lines |
| BlockEdits.ApplyEdits | src/apache.rs:1238-1258 | writing into a host is editing its lines, or the reason it is refused |
| ApplyBlocks.BlocksForFile | src/apache.rs:1281-1300 | the loop, reading the file again for each host, does what its recursive description says, refusals and the host-count guard included |
| ApplyBlocks.BlockForSite | src/apache.rs:1305-1323 | the same for one site's hosts |
| ApplyTheorems.RefusalIgnoresBlock | src/apache.rs:940-1000 | a refusal gives the same answer with and without a block in front of the host's lines |
| ApplyTheorems.TurnKeepsPieces | src/apache.rs:1238-1275 | every intermediate edit changes one host's lines and leaves the file reading as the same hosts, in order, with the same names and TLS |
| ApplyTheorems.ApplyIsOnePass | src/apache.rs:1281-1323 | host by host with re-reading is writing to all hosts at once, and is never refused for a changed number of hosts |
| ApplyTheorems.HostsSurvive | src/apache.rs:1281-1323 | the written file has the same hosts, in order, with the same names, TLS and addresses |
| ApplyTheorems.LastApplyWins | src/apache.rs:1281-1323 | on a file with no section, writing one choice and then another is writing the second alone, refusals included |
| BlockRemoval.WithoutInjectedBlocks | src/apache.rs:1405-1425 | the loop terminates with the sections taken out, and none is left to be found |
| BlockRemoval.RemovalUndoesApplying | src/apache.rs:1400-1425 | on every file with no section, applying and then removing gives the file back, character for character |
| ApplyStatus.SiteApplyStatus | src/apache.rs:1372-1399 | not found exactly when the file is unreadable or no host has the name; up to date exactly when every matching host is current and so is the trust file |
| ApplyStatus.ChangeIsNeverUndone | src/apache.rs:1305-1323 | on any file, however its sections were edited by hand, a step that changes the text is never undone by the steps after it |
| ApplyStatus.CurrentMeansNothingToApply | src/apache.rs:1305-1399 | on any file, every host of a site is current if and only if applying its configuration succeeds and changes nothing |
| ApplyAgain.ApplyTwiceIsOnce | src/apache.rs:1236-1258 | on every file whose sections are blocks as written here, applying again changes nothing if and only if no host that no block is written into had a second section behind the one taken out |
| ApplyAgain.AppliedIsCurrent | src/apache.rs:1372-1399 | after an apply on such a file the site is current in exactly that case |
| ApplyAgain.CleanHasNoneLeft | src/apache.rs:1236-1258 | which is always the case on a file that had no section |
| ApplyAgain.PastedTwiceTakesTwo | src/apache.rs:1236-1258 | a file where it is not: a host with the block pasted in twice, and nothing to block any more |
| ApplyAgain.WrittenIsNotRefused | src/apache.rs:940-1000 | what was not refused before a block was written, or taken out, is not refused after, wherever in the host the block is |
| Containment.ContainKeepsSync | src/contain.rs:713-808 | containing keeps the firewall's sets equal to what the open containments say |
| Containment.ReleaseKeepsSync | src/contain.rs:819-871 | so does releasing, with addresses another containment holds left cut off |
| Containment.MaintainKeepsSync | src/contain.rs:875-961 | so does keeping up from a listing made at the start, with containers that move, share or swap addresses |
| Containment.MaintainFollows | src/contain.rs:875-961 | after a pass, an open containment of a container is recorded at exactly the addresses the first container listed with its id has now, when that has any, and those are cut off; it is paused if it is to be and runs; and where none is listed with the id it stays as it was |
| Containment.MaintainOnlyFollows | src/contain.rs:875-961 | a pass does no more: it opens and closes nothing, changes only where listed containers are, and pauses only what an open containment says to and the runtime lists as running |
| Containment.ContainMeans | src/contain.rs:713-808 | containing opens one record of the target, cuts off exactly its addresses or its uid, and pauses no more than its container, exactly when the target may be contained so, is not contained yet, and it is for real |
| Containment.ReleaseMeans | src/contain.rs:819-871 | releasing closes one containment and lets back exactly what no other one holds |
| Containment.ReleaseUndoesContain | src/contain.rs:813-871 | releasing what was just contained restores the firewall, and the paused containers if and only if it was not a pause of a container already paused |
| Containment.ReleaseUnpausesAnothers | src/contain.rs:816-871 | a host where it was: containing pauses nothing, and releasing unpauses what someone else had paused |
| Breaker.CandidatesAreWanted | src/contain.rs:1144-1186 | a target is a candidate exactly when some hit wants it, and only once |
| Breaker.WantedIsNotRefused | src/contain.rs:1033-1068 | what a pass wants to contain is never refused, so the pass always goes through |
| Breaker.OpenedForAReason | src/contain.rs:1012-1246 | every automatic containment is of the first container that has the address a hit was forwarded from, or of the user a hit was logged for; a feed that may contain lists that hit's destination; and it is one that may be contained: not root, not on the never list by any of its names, not logged in |
| Breaker.BlamedAreContained | src/contain.rs:1144-1246 | and everyone a hit blames so is contained after a pass that is to contain and does not trip |
| Breaker.FewHitsDoNotTrip | src/contain.rs:1118-1213 | a pass does not trip with too few hits to crowd a destination or to go over the limit |
| Breaker.TripsExactly | src/contain.rs:1118-1213 | where no destination is crowded, a pass trips exactly when those newly asked for and those contained automatically within the hour are more than the limit together |
| Breaker.CrowdTrips | src/contain.rs:1118-1213 | it does when one destination was reached by as many different culprits as the limit, two at least |
| Breaker.PassObeysBreaker | src/contain.rs:1188-1229 | a pass that trips, or finds the breaker tripped, opens nothing; one that opens anything leaves no more than the limit dated within the hour |
| Breaker.TrippingOpensNone | src/contain.rs:1188-1213 | a pass that trips for real opens nothing and leaves the breaker tripped |
| Breaker.RunKeepsSync | src/contain.rs:713-1246 | over every run of containing, releasing, keeping up, answering and resetting, the firewall stays in step |
| Breaker.RunKeepsLimit | src/contain.rs:1199-1229 | over every run with one limit, no hour comes to hold more automatic containments than it, those from before the run counted too, whatever the times of the passes and the resets; an hour that held more before the run gains none |
| Breaker.RootIsNeverContained | src/contain.rs:713-1246 | over every run, whoever asks and whatever is hit, root is never contained |
| Breaker.TrippedUntilReset | src/contain.rs:1214-1229 | once tripped, nothing is contained automatically until the breaker is reset |
| Guard.CrowdedDestinations | src/contain.rs:1121-1139 | the tally over a map finds exactly the crowded destinations |
| Guard.Containments.Contain | src/contain.rs:713-808 | the new state and the answer, address by address, are those of the specification; the firewall stays in step |
| Guard.Containments.Release | src/contain.rs:819-871 | the same for releasing |
| Guard.Containments.MaintainContainer | src/contain.rs:904-961 | the same for one container, found again where it is now |
| Guard.Containments.Maintain | src/contain.rs:875-902 | the same for a pass over every open containment |
| Guard.Containments.Respond | src/contain.rs:1102-1246 | the same for a pass that answers hits |
| Guard.Containments.ResetBreaker | src/contain.rs:217-219 | clears the breaker and nothing else |
| LogLines.CombinedReads | src/accesslog.rs:97-136 | a line of the combined format, with spaces in front or none, is known for one and gives back address, time stamp, status, request, referer and user agent, for every quote-free user name, brackets and spaces included |
| LogLines.RequestReads | src/accesslog.rs:224-254 | from the request on, every quoted field is read back as it was written, the trailing ones too |
| LogLines.RequestLineReads | src/accesslog.rs:256-287 | a request is its verb, its path without the query, whether it had one, and itself as written |
| LogLines.QuotedNpmplusReads | src/accesslog.rs:97-187 | a whole line of NPMplus's quoted version gives its fields back, for every quote-free `Host`, addresses and spaces in it included |
| LogLines.HostReads | src/accesslog.rs:97-187 | a `Host` of words with one blank between them is kept as it was |
| LogLines.UnquotedTailReads | src/accesslog.rs:194-219 | the unquoted tail gives back status, a one-word referer and the trimmed user agent |
| LogLines.UnquotedNpmplusReads | src/accesslog.rs:97-219 | so does a whole line of NPMplus's released version |
| TurnedAway.OrderedIsUnique | src/accesslog.rs:1204-1223 | the sort makes the list unique: entries in order with the same members are the same list |
| TurnedAway.ReportIsUnique | src/accesslog.rs:1717-1785 | logs that are permutations of each other have the same report |
| TurnedAway.ReportOrder | src/accesslog.rs:1204-1223 | the most refused come first, then the least served, then it goes by name |
| TurnedAway.AnswersMeans | src/accesslog.rs:1717-1767 | a line counts for an agent exactly when it is a request from a public address under that name, not borrowed, that was refused, or served |
| TurnedAway.ImpersonatesMeans | src/accesslog.rs:785-798 | a name is borrowed when it is some crawler's whose addresses are known, and the address is none of any crawler named |
| TurnedAway.AttacksMeans | src/accesslog.rs:1788-1797 | an attack is a path with a probe in it, whatever its case, or a payload |
| Survey.SortedTurnedAway | src/accesslog.rs:1204-1223 | the agents that were refused, in order, and no other |
| Survey.Survey.Line | src/accesslog.rs:1717-1767 | every counter, the sample, the attackers and the table say what they should of the lines read, this one included |
| Survey.Survey.TurnedAway | src/accesslog.rs:1770-1785 | the report of one pass is that of two: first every attacker, then the refusals and visits of the rest |
| Survey.SurveyLog | src/accesslog.rs:1194-1200 | for every log, in any order, the one list two passes over it would give |
| Injections.Verdicts.Judged | src/accesslog.rs:1617-1631 | the answer is the judge's whether remembered or not, and the memory never holds more than its limit |
| Injections.Observer.Injection | src/accesslog.rs:1556-1566 | the payload found through the memories is the one judged afresh |
| Injections.Observer.Line | src/accesslog.rs:1390-1448 | the evidence after a line is that of the lines read with nothing remembered |
| Injections.EvidenceIsConviction | src/accesslog.rs:1483-1490 | that evidence names exactly the addresses some line convicts, each once |
| Injections.ConvictsMeans | src/accesslog.rs:1390-1448 | what convicts an address: a request of its that reads, is public, no probe of this project's, late enough, and judged a payload in its request, user agent or referer |
| Injections.EvidenceIsTheFirst | src/accesslog.rs:1390-1490 | on record of an address is exactly what the first line that convicts it is judged by, the request before the user agent before the referer, and when that happened |
| Injections.ObserveLog | src/accesslog.rs:1346-1448 | over every log, the memories and the addresses already convicted change nobody's conviction |
| ApplyLock.StepKeepsOk | src/applylock.rs:144-175 | every step of every thread keeps the kernel's lock with the one thread inside that has its file |
| ApplyLock.RunStaysOk | src/applylock.rs:55-72 | so in every interleaving of any number of threads |
| ApplyLock.OneInside | src/applylock.rs:141-175 | of two threads inside, at least one came in past a lock file it could not open |
| ApplyLock.Exclusive | src/applylock.rs:144-175 | with every lock file opened, at most one thread is inside, and the lock is free exactly when none is |
| ApplyLock.DepthIsGuards | src/applylock.rs:55-72 | `DEPTH` is the number of the thread's live guards |
| ApplyLock.NestedNeverWaits | src/applylock.rs:145-148 | a thread with a guard is never waiting, and holding again succeeds at once |
| ApplyLock.FreeWhenNoneInside | src/applylock.rs:67-72 | the kernel's lock is free exactly when nobody is inside with a file |
| ApplyLock.WaitingGetsIn | src/applylock.rs:156-163 | a waiting thread's next try succeeds exactly when no thread is inside with a file: nothing else keeps it out |
| ApplyLock.AnUnopenedFileLetsTwoIn | src/applylock.rs:149-155 | an interleaving where a lock file that cannot be opened lets a second apply in |

## Left out

- What `patch` gives back is a list of lines: how the other file ends each of them, and whether it
  ends the last one, is not in a diff. A label with a line break in it, where callers pass a file path, is
  outside the theorems on a diff's text.
- Counter widths: `usize`, `u32` and `u64` counters are unbounded here, except the table entries of
  the exact diff, which are shown never to come near their limit.
- The order a `HashMap` yields its entries in is any order; the order of a row's addresses, which
  the source sorts before storing, is not kept, and they are compared as multisets.
- File system walking, `Include` expansion, permissions and environment overrides of
  `src/apache.rs`, its trust file's body and its discovery of sites: input and output.
- Messages: refusals, answers and alerts are values here, without their wording.
- Rate limiting, which Apache's block does not render, and the settings it does not read.
- `nft`, `iptables`, `docker`, `pkill` and `who`: only their effect on sets and flags. Stopping a
  container and killing a user's processes change nothing the model keeps.
- Marking hits as answered and the evidence store.
- Injections.Observer.Line: keeps the payload detector's evidence alone. The other detectors judge
  each line by itself and remember nothing, so the memories cannot change what they find.
- The JSON log format, whose parser is a parameter of `LogLines.ParseLine`.
- A lock's wall-clock wait, polling and recorded holder; guards dropped out of order or moved
  between threads, which the counter does not cover.
