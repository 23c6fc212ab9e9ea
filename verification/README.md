# OnlineRewards — a Dafny model of the threshold engine

OnlineRewards is a Bukkit server plugin. The configuration maps integer
thresholds of online players to lists of console commands. When a player
joins, the plugin counts the players online. Every threshold reached for the
first time fires its commands, in ascending threshold order. A fired
threshold does not fire again until the trigger set is cleared. Along the
way the plugin keeps a record of the highest count ever seen. Once an hour
it broadcasts a templated announcement about the next threshold.

This project models that core as pure functions over an immutable state:

- `Decimal` — `Integer.parseInt` on a configuration key and
  `String.valueOf` on an `int`, with the 32-bit range.
- `Text` — `String.replace` and `String.join`.
- `ThresholdTable` — the `TreeMap<Integer, List<String>>` of thresholds, as
  a strictly ascending list of entries with a map view.
- `Engine` — the state (table, trigger set, persistence flag, template, the
  in-memory `data.yml` document and the copy last written to disk),
  `checkThresholds` as `Check`, `getNextThreshold` as `NextThreshold` and
  `saveData`. A check returns its new state and a trace of events: the
  console commands it dispatches and the documents it writes.
- `Announce` — the hourly announcement's figures and the placeholder
  substitution.
- `Lifecycle` — `loadConfigValues`, the `reload` command, start-up with
  `loadData`, and shutdown.
- `Runs` — sequences of checks: at-most-once firing, exactly which
  thresholds fire over a run, and the record as a high-water mark.
- `Scenarios` — concrete runs worked through end to end.

The number of players online, the configuration file and the stored data
document are parameters of the operations.

## Model

| member | source | states |
|---|---|---|
| Decimal.ParseInt | src/main/java/org/example/onlinerewards/OnlineRewardsPlugin.java:117 | A key that parses yields a 32-bit integer; the empty key is rejected; a leading minus gives a non-positive value and anything else a non-negative one |
| Decimal.ParseShow | src/main/java/org/example/onlinerewards/OnlineRewardsPlugin.java:117 | Every 32-bit integer written in decimal parses back to itself, so every threshold a configuration can name is loadable from its decimal key |
| Decimal.ParseRejectsNonDigit | src/main/java/org/example/onlinerewards/OnlineRewardsPlugin.java:117-119 | A key with a non-digit anywhere after an optional leading sign is rejected, which is the NumberFormatException path |
| Decimal.Show | src/main/java/org/example/onlinerewards/OnlineRewardsPlugin.java:74-76 | The decimal text of a number starts with a minus sign exactly when the number is negative. Apart from that sign it is decimal digits only, with no '+' and no leading zero, so with `ParseShow` it is the canonical decimal of the number |
| Text.Replace | src/main/java/org/example/onlinerewards/OnlineRewardsPlugin.java:73-77 | `String.replace`: left-to-right, non-overlapping replacement of every occurrence. Its meaning is stated by the lemmas below: leftmost match first, identity without a match, piecewise across a cut, identity when the target is its own replacement |
| Text.ReplaceAbsent | src/main/java/org/example/onlinerewards/OnlineRewardsPlugin.java:73-77 | A template with no occurrence of a placeholder is left unchanged by that placeholder's replace |
| Text.ReplaceFirst | src/main/java/org/example/onlinerewards/OnlineRewardsPlugin.java:73-77 | Replace substitutes the leftmost occurrence and continues after it without overlap |
| Text.ReplaceSplit | src/main/java/org/example/onlinerewards/OnlineRewardsPlugin.java:73-77 | Replace works piecewise across a cut where the right part starts with a character the target lacks, so no match can straddle the cut |
| Text.ReplaceBySelf | src/main/java/org/example/onlinerewards/OnlineRewardsPlugin.java:73-77 | Replacing a target by itself leaves any text unchanged |
| Text.ReplaceWhole | src/main/java/org/example/onlinerewards/OnlineRewardsPlugin.java:73-77 | A template that is exactly the target becomes exactly the replacement |
| Text.Join | src/main/java/org/example/onlinerewards/OnlineRewardsPlugin.java:72 | `String.join`: the elements in order with the separator only between neighbours. `JoinSnoc` states how one more element extends it, and `Announce.Compute` states that the preview is this join of the next threshold's commands |
| Text.JoinSnoc | src/main/java/org/example/onlinerewards/OnlineRewardsPlugin.java:72 | Joining a command list with one more command appends exactly one separator and that command, so the preview lists the commands in order with "; " only between neighbours |
| ThresholdTable.ToMap | src/main/java/org/example/onlinerewards/OnlineRewardsPlugin.java:21 | The map view of the threshold table has the table's keys as its domain |
| ThresholdTable.ToMapInjective | src/main/java/org/example/onlinerewards/OnlineRewardsPlugin.java:21 | Two ascending tables with the same map are the same list, so the sorted-map contents fix the iteration order |
| ThresholdTable.Put | src/main/java/org/example/onlinerewards/OnlineRewardsPlugin.java:118 | Putting a threshold overwrites or adds exactly that key's command list, keeps every other entry, and keeps the table ascending |
| ThresholdTable.Get | src/main/java/org/example/onlinerewards/OnlineRewardsPlugin.java:71 | The lookup finds a list exactly when the key is present, and that list is the map's value |
| ThresholdTable.FirstKeyAbove | src/main/java/org/example/onlinerewards/OnlineRewardsPlugin.java:105-109 | The first key above the current count, when one exists, is the least key above it; there is none exactly when every key is at or below the count |
| Engine.Pending | src/main/java/org/example/onlinerewards/OnlineRewardsPlugin.java:89-91 | The entries a check fires are exactly the reached thresholds not already triggered |
| Engine.PendingMap | src/main/java/org/example/onlinerewards/OnlineRewardsPlugin.java:89-92 | Each pending threshold carries the table's own command list |
| Engine.Fire | src/main/java/org/example/onlinerewards/OnlineRewardsPlugin.java:92-99 | Firing one entry adds its key to the trigger set and dispatches exactly its commands. When persisting it writes exactly one document, holding the old record and the enlarged set; otherwise it writes nothing. Table and record are untouched |
| Engine.FireFrom | src/main/java/org/example/onlinerewards/OnlineRewardsPlugin.java:89-101 | The entry loop adds every reached threshold to the trigger set and leaves table, flag, template and record alone. Its trace is the reference firing log of the pending entries. The triggered list in the document, and the disk copy, change only when persisting and something fired |
| Engine.Check | src/main/java/org/example/onlinerewards/OnlineRewardsPlugin.java:81-102 | After a check the record is the maximum of the old record and the count, and the trigger set gains exactly the reached thresholds. The trace is a save of the raised record (only when the count beats it) followed by the firing log. The document's triggered list and the disk change only as persistence and firing dictate |
| Engine.CheckCommands | src/main/java/org/example/onlinerewards/OnlineRewardsPlugin.java:89-94 | The commands a check dispatches are the command lists of the reached, untriggered thresholds, concatenated in ascending threshold order |
| Engine.CheckSaves | src/main/java/org/example/onlinerewards/OnlineRewardsPlugin.java:84-99 | A check writes the raised record first, and only when the count beats it. When persisting it then writes one document per fired threshold, holding the trigger set as it stood right after that fire; otherwise it writes nothing more |
| Engine.CheckIdempotent | src/main/java/org/example/onlinerewards/OnlineRewardsPlugin.java:81-102 | A second check at the same count dispatches nothing, writes nothing and changes nothing |
| Engine.CheckKeepsPersisted | src/main/java/org/example/onlinerewards/OnlineRewardsPlugin.java:95-99 | While persisting, a check keeps the document's triggered list equal to the trigger set. Every fire writes the enlarged set, and a check that fires nothing adds no key |
| Engine.NextThreshold | src/main/java/org/example/onlinerewards/OnlineRewardsPlugin.java:104-111 | The next threshold is the least configured threshold strictly above the count; it equals the count exactly when no threshold is above it |
| Engine.SaveData | src/main/java/org/example/onlinerewards/OnlineRewardsPlugin.java:139-146 | `saveData`: the in-memory document becomes the disk copy and one write is emitted. It has no contract of its own. The disk clauses of `Engine.Fire`, `Engine.Check` and `Lifecycle.Shutdown` state what each save leaves on disk, and `Lifecycle.RestartRestores` states that a save followed by a start restores the trigger set |
| Announce.Compute | src/main/java/org/example/onlinerewards/OnlineRewardsPlugin.java:68-72 | The announced next threshold is the count plus a non-negative distance to go. The distance is zero exactly when no threshold lies above the count, and otherwise the next value is the least threshold above it. The preview is that threshold's commands joined by "; ", or empty when the value is not a threshold |
| Announce.TopThresholdPreview | src/main/java/org/example/onlinerewards/OnlineRewardsPlugin.java:69-72 | When the count sits exactly on the highest threshold, the announcement previews that threshold's own commands with zero to go |
| Announce.Render | src/main/java/org/example/onlinerewards/OnlineRewardsPlugin.java:73-77 | The four substitutions in source order. It has no contract of its own: `RenderSlashTemplate` shows each placeholder receiving its own figure, `PreviewIsLiteral` that the preview goes in last and verbatim, and `RenderWithoutPlaceholders` that plain text passes through |
| Announce.Announcement | src/main/java/org/example/onlinerewards/OnlineRewardsPlugin.java:67-78 | The broadcast text: the template rendered with the figures `Compute` gives for the table and the count. Its meaning follows from `Compute` and the `Render` lemmas |
| Announce.RenderWithoutPlaceholders | src/main/java/org/example/onlinerewards/OnlineRewardsPlugin.java:73-77 | A template without any '%' is broadcast verbatim |
| Announce.PreviewIsLiteral | src/main/java/org/example/onlinerewards/OnlineRewardsPlugin.java:73-77 | The preview is inserted last, so the command text is broadcast literally even if it contains other placeholders |
| Announce.ShowPlain | src/main/java/org/example/onlinerewards/OnlineRewardsPlugin.java:74-76 | A rendered number contains no '%', so it cannot create a placeholder for a later replace |
| Announce.RenderSlashTemplate | src/main/java/org/example/onlinerewards/OnlineRewardsPlugin.java:73-77 | A template that uses all four placeholders, separated by '/', renders to the count, the next threshold, the distance and the preview, each in its own place |
| Announce.RenderExample | src/main/java/org/example/onlinerewards/OnlineRewardsPlugin.java:67-77 | With 7 online and a single threshold 10 holding two commands, the announcement reads "7/10/3/cmd1; cmd2" |
| Lifecycle.BuildTable | src/main/java/org/example/onlinerewards/OnlineRewardsPlugin.java:114-121 | The table rebuilt from scratch by `put`-ting the section's entries in file order and skipping keys that do not parse. `BuildTableKeys`, `BuildTableLastWins` and `BuildTableSkipsMalformed` state its contents |
| Lifecycle.BuildTableKeys | src/main/java/org/example/onlinerewards/OnlineRewardsPlugin.java:114-121 | The loaded table holds exactly the keys of the section that parse as integers |
| Lifecycle.BuildTableLastWins | src/main/java/org/example/onlinerewards/OnlineRewardsPlugin.java:115-118 | When several keys parse to the same threshold, the last one in file order supplies the command list |
| Lifecycle.BuildTableSkipsMalformed | src/main/java/org/example/onlinerewards/OnlineRewardsPlugin.java:116-120 | A key that does not parse has no effect on the table, wherever it appears |
| Lifecycle.BuildTableContents | src/main/java/org/example/onlinerewards/OnlineRewardsPlugin.java:114-121 | The loaded table holds exactly the parsing keys, each with the list of the last entry in file order that parses to it |
| Lifecycle.LoadConfig | src/main/java/org/example/onlinerewards/OnlineRewardsPlugin.java:113-124 | Loading succeeds exactly when the thresholds section exists. The table then holds exactly the section's keys that parse as integers, and each of them maps to the list of the last entry in file order that parses to it. The announcement defaults to "" and the persistence flag to true |
| Lifecycle.Reload | src/main/java/org/example/onlinerewards/OnlineRewardsPlugin.java:33-38 | A reload installs the new table, template and flag. It clears the trigger set exactly when the new flag is off and never touches the record or the documents. Without a section the table is left empty and nothing else changes |
| Lifecycle.Startup | src/main/java/org/example/onlinerewards/OnlineRewardsPlugin.java:126-137 | Start-up loads the configuration, including its template and flag. It then restores the trigger set from the stored document, or an empty one when there is none, whatever the persistence flag. The restored state has the document's triggered list in step with the trigger set |
| Lifecycle.RestartRestores | src/main/java/org/example/onlinerewards/OnlineRewardsPlugin.java:134-136 | A shutdown while persisting, with the document in step with the trigger set, followed by a start from the written document restores exactly that trigger set, whatever the new configuration |
| Lifecycle.ReloadKeepsPersisted | src/main/java/org/example/onlinerewards/OnlineRewardsPlugin.java:33-38 | A reload while persisting keeps the document's triggered list in step with the trigger set, whatever the new flag |
| Lifecycle.Shutdown | src/main/java/org/example/onlinerewards/OnlineRewardsPlugin.java:48-50 | Disabling writes the in-memory document to disk and changes nothing else |
| Runs.Run | src/main/java/org/example/onlinerewards/OnlineRewardsPlugin.java:81-102 | A run is one check per observed count. It keeps the table, the flag and the template; the Runs lemmas below state what it fires and records |
| Runs.RunFiresReached | src/main/java/org/example/onlinerewards/OnlineRewardsPlugin.java:89-95 | Over any run of checks, a threshold fires exactly when it is configured, was not triggered at the start, and some count in the run reached it, even if the count later drops |
| Runs.FiresAtFirstReach | src/main/java/org/example/onlinerewards/OnlineRewardsPlugin.java:89-95 | The check on the i-th count fires exactly the thresholds that were not triggered at the start, that this count reaches, and that every earlier count fell short of. So a threshold fires at the first check that reaches it |
| Runs.RunFiredIncreasing | src/main/java/org/example/onlinerewards/OnlineRewardsPlugin.java:89-95 | Over a whole run the thresholds fire in strictly ascending order, across checks as well as within one |
| Runs.RunFiresOnce | src/main/java/org/example/onlinerewards/OnlineRewardsPlugin.java:91-95 | No threshold fires twice in a run |
| Runs.RunTriggered | src/main/java/org/example/onlinerewards/OnlineRewardsPlugin.java:95 | After a run the trigger set is the starting set plus exactly the thresholds the run fired, and the table is unchanged |
| Runs.RunRecord | src/main/java/org/example/onlinerewards/OnlineRewardsPlugin.java:83-87 | After a run the record is the largest of the starting record and every observed count |
| Runs.RecordTrailIsRunningMax | src/main/java/org/example/onlinerewards/OnlineRewardsPlugin.java:83-87 | The record after each check is the running maximum of the counts seen so far |
| Runs.RecordTrailMonotone | src/main/java/org/example/onlinerewards/OnlineRewardsPlugin.java:83-87 | The record never decreases over a run and never falls below its starting value |
| Runs.ReloadThenCheck | src/main/java/org/example/onlinerewards/OnlineRewardsPlugin.java:33-38 | After a reload that turns persistence off, the next check fires every reached threshold again. After one that keeps it on, only those not fired before fire |
| Runs.LifetimeRestores | src/main/java/org/example/onlinerewards/OnlineRewardsPlugin.java:126-137 | Start, run any checks, then shut down while persisting: the next start, under any configuration, restores the trigger set as it stood |
| Scenarios.NextThresholdExample | src/main/java/org/example/onlinerewards/OnlineRewardsPlugin.java:104-111 | With thresholds 10, 25 and 50, the next threshold after 12 is 25, and after 50 it is 50 itself |
| Scenarios.RecordExample | src/main/java/org/example/onlinerewards/OnlineRewardsPlugin.java:83-87 | Counts 5, 20, 8, 20, 30 from a zero record leave the records 5, 20, 20, 20, 30 |
| Scenarios.MalformedKeyExample | src/main/java/org/example/onlinerewards/OnlineRewardsPlugin.java:116-120 | A section with keys "abc" and "5" loads only threshold 5 |
| Scenarios.RepeatFive | src/main/java/org/example/onlinerewards/OnlineRewardsPlugin.java:91 | A player joining again at the same count fires nothing |
| Scenarios.EndToEndExample | src/main/java/org/example/onlinerewards/OnlineRewardsPlugin.java:81-102 | With thresholds 5 → A and 10 → B, C and persistence on, joins at counts 3, 5, 5 and 10 have this effect: they dispatch A, B, C once each in that order, fire 5 then 10, and leave record 10 and trigger set {5, 10}, both on disk |

## Left out

- Bukkit glue is not modelled: command registration and the usage message (lines 32-44), event registration (30), scheduling a check one tick after a join (52-55), the hourly timer (57-65) and the broadcast itself (78). The count of players online is a parameter, and an announcement or check is a function call.
- Dispatching a console command is an event in the trace, and the model assumes the command does not re-enter the plugin. `Bukkit.dispatchCommand` (line 93) runs the command synchronously inside the entry loop (line 89). So a threshold whose list holds `onlinerewards reload` runs the reload executor (lines 33-38) in the middle of the check. `thresholds.clear()` (line 114) then modifies the map being iterated. The Java still adds that threshold to the set, and saves the set when persistence is still on. Its next loop step then throws ConcurrentModificationException, so no later threshold fires on that check. A reload that turns persistence off also clears the set mid-loop. The model instead fires every pending threshold, as if the command left the plugin alone.
- File handling in `loadData` and `saveData` is not modelled: the data folder, creating the file (126-133), and the null guard on the file (140). The stored document is an `Option<Doc>`, where None means the file was just created empty.
- Engine.SaveData: a write never fails in the model. The source only prints the stack trace of an `IOException` (143-144), and in-memory state is unaffected either way.
- The triggered list on disk is a set. The source writes the hash set's elements as a list in an unspecified order, and reads them back as a set.
- Decimal.ParseInt accepts ASCII digits only. `Integer.parseInt` also accepts digits of other Unicode scripts.
- YAML typing is not modelled: `getStringList` dropping non-list values, `getIntegerList` coercion, and the default configuration copied from the jar (27). A section's keys arrive as strings, in file order, each with its string list.
- Text.Replace requires a non-empty target. Every call in the source passes a non-empty literal, so the empty-target behaviour of `String.replace` is not needed.
- The announcement template is never null in the model. `getString` with a default returns "" when the key is absent.
- Lifecycle.Reload: the None branch stands for a configuration where neither the file nor the bundled default config.yml has a `thresholds` section. Only then does `getConfigurationSection` return null. The key loop then throws after the table was cleared, so the template, the flag and the trigger set keep their old values. The model states this outcome without modelling the exception. At start-up the same failure aborts enabling, so `Startup` returns None. When the section exists only in the bundled defaults, Bukkit hands back an empty section. The caller then passes `Some([])`, and the reload or start-up completes with an empty table. The bundled config.yml is not part of this model, so which of the two cases applies is left to the caller.
- Negative threshold keys: the code accepts any key `Integer.parseInt` accepts, including negative ones, and the model follows the code. A negative threshold is reached by every count.
- Lifecycle.Startup restores the trigger set from the stored document even when persistence is off. A reload that turns persistence off clears the set only in memory, so a list saved earlier comes back on the next start. The model follows the code.
- Lifecycle.ReloadKeepsPersisted requires a state that is already persisting. A reload that turns persistence back on keeps the trigger set in memory but writes nothing. Thresholds fired while persistence was off therefore reach the document only at the next fire, and a restart before that forgets them. The model follows the code.
