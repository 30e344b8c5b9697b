# Verified models of multipath-tools

A Dafny project that models the stateful cores of multipath-tools, the user space of the Linux
device-mapper multipath target, and proves what each of them promises. `dafny verify dfyconfig.toml`
checks all of it. One module stands for one core:

| file | what it models |
|---|---|
| `LogArea.dfy`, `LogThread.dfy` | the message ring inside a byte arena, and the wakeup protocol around it |
| `HostOrder.dfy` | splitting the paths of a group by adapter and host, and merging them back in alternation |
| `AliasCodec.dfy`, `BindingsFile.dfy`, `AliasSettings.dfy` | user-friendly names: the base-26 code, the append-only file, the consistency check |
| `Words.dfy`, `Features.dfy`, `DmTable.dfy` | counted feature strings, and the printer and parser of the device-mapper table |
| `PrkeyFile.dfy` | the reservation-key file as a finite map |
| `Quoting.dfy` | the configuration tokenizer against the printer of quoted values |
| `Crc32.dfy` | the table-driven CRC-32 against the bit-at-a-time one, and what it detects |
| `Paths.dfy`, `PathGroups.dfy` | which paths a list takes; grouping policies, the order of path groups, and the choice of one |
| `HwTable.dfy` | merging of duplicate device and multipath sections |
| `ProutRegister.dfy` | registering a reservation key on all paths, with rollback |

How the models are built:

- Code that changes state is imperative Dafny: classes whose methods update their fields, arrays and
  strings changed in loops. Each such method is proved against a specification function or states its
  result outright; lemmas about the specification say what the program is for.
- The two concurrent protocols are state machines. A step is one lock operation, one access to shared
  data or one SCSI command; theorems quantify over every run of enabled steps.
- In the log area one array cell stands for a byte, and a header field of several bytes lives in the
  cell of its first byte, with addresses as offsets from the start. A text is cut where `vsnprintf`
  would cut it, and a priority is stored in a C `short`. A call whose loads or stores would leave the
  arena, or the caller's buffer, has the outcome `Fault`.
- `int` arithmetic is bounded where the code guards it (`AliasCodec`, by a 32-bit type); CRC registers
  are 32-bit vectors and their tables arrays of them.
- Path lookups in sysfs, the success of `pthread_create`, the outcome of a SCSI command, the kernel's
  age and whether a file may be written are parameters or free choices of the environment.
- Memory allocation succeeds.

Some places where the code does less than one might expect are proved as they are, each with its exact
condition:

- `LogArea.RunsAreFifoIff`: the ring is a first-in first-out queue on every run if and only if its arena
  has at least 528 bytes. In a smaller one a run of six calls damages a queued text, or leaves the arena.
- `Features.RemoveRightIff`: removing a feature is right if and only if the first word that contains its
  name is the name.
- `AliasCodec.FormatInvertsScan`: an alias comes back from its id if and only if no blank follows the prefix.
- `BindingsFile.LinesAppend`: a line appended to the bindings file is read as one more line if and only if
  the file ended in a newline, or its last read filled the buffer.
- `BindingsFile.File.UseExistingAlias`: it writes a second line for an alias exactly when a wwid of 128
  characters or more has that alias.
- `DmTable.MinioRecoveredIff`: a weighted `minio` comes back only when the scale of the last path is undone.
- `PrkeyFile.HeaderSuits`: five words cannot be stored as wwids, because they end lines of the header.

## Model

| member | source | states |
|---|---|---|
| LogArea.ExtentsDisjoint | libmultipath/log.c:109-166 | any two queued messages occupy disjoint stretches of the arena |
| LogArea.RoomIsPlace | libmultipath/log.c:127-149 | when the rewind and overrun tests let a message in, its stretch ends inside the arena and keeps clear of every queued message |
| LogArea.PlacedIsFree | libmultipath/log.c:127-157 | the place chosen by the tests, with or without a rewind, is free of queued messages |
| LogArea.StageKeepsLayout | libmultipath/log.c:151-157 | a staged message leaves the queue aligned, in order around at most one rewind, inside the arena |
| LogArea.StageKeepsRing | libmultipath/log.c:151-157 | after staging, the arena holds the old messages and the new one behind them, chained head to tail by their next fields |
| LogArea.DropKeepsLayout | libmultipath/log.c:183-188 | taking the head away leaves the layout of the others intact |
| LogArea.DropKeepsRing | libmultipath/log.c:180-192 | after a dequeue, with the freed header and text zeroed, the arena still holds all other messages and their chain |
| LogArea.StrlenOfMsg | libmultipath/log.c:119-121 | strlen at a queued message is the length of its text |
| LogArea.MsgFromIs | libmultipath/log.c:177-181 | what memcpy copies of a stored message is that message, byte for byte |
| LogArea.PlaceOnRing | libmultipath/log.c:127-149 | the rewind and drop tests drop a message exactly when it has no room, and otherwise find it a free place |
| LogArea.StoreWrites | libmultipath/log.c:151-157 | the stores write the message and both links, and change nothing else |
| LogArea.PutOnRing | libmultipath/log.c:109-166 | log_enqueue is put-behind: on 0 the message, its text cut to the buffer, is last; on 1 nothing changes; room at the end or before the head decides; in an arena of any size, unless the next field of the old record falls into the new message |
| LogArea.GetOnRing | libmultipath/log.c:168-195 | log_dequeue is take-from-the-front: 1 and no change when empty; otherwise the oldest message byte for byte, and the rest stays queued; in an arena of any size |
| LogArea.RunIsFifo | libmultipath/log.c:109-195 | in an arena of 528 bytes or more any run stays inside it, and what was queued followed by what was accepted equals what came out followed by what is still queued |
| LogArea.SettingIsFifo | libmultipath/log.c:109-195 | in every smaller arena two messages can be put and taken so that the area is empty and its registers stand where the largest message has to rewind over them |
| LogArea.TrapSprings | libmultipath/log.c:128-157 | that message then leaves an arena below 272 bytes, and in any other below 528 the store of the old record's next field hits its text, so that a dequeue hands out a shorter one |
| LogArea.RunsAreFifoIff | libmultipath/log.c:41-195 | for every requested size: all runs of enqueue and dequeue on a new area stay inside it, hand out what was accepted in that order, and report empty exactly when nothing is left, if and only if the size is below 256 and so replaced by the default, or at least 528 |
| LogArea.Area.constructor | libmultipath/log.c:41-73 | a new area of any requested size is an empty ring; a size below the largest message stands for the default |
| LogArea.Area.Enqueue | libmultipath/log.c:109-166 | computes the modelled call from any state of the area; on a ring of at least 528 bytes the message, its text cut to the buffer, is last on 0, nothing changes on 1, and free room at the end or before the head decides |
| LogArea.Area.MakeRoom | libmultipath/log.c:127-149 | the place that the rewind and drop tests find, with head and tail put back when the message is dropped |
| LogArea.Area.Write | libmultipath/log.c:151-157 | header, text and both next fields are written, nothing else |
| LogArea.Area.Dequeue | libmultipath/log.c:168-195 | computes the modelled call from any state of the area; on a ring 1 and no change when empty, otherwise the oldest message, and the rest stays queued |
| LogArea.Area.CopyOut | libmultipath/log.c:177-181 | what memcpy copies of the message at the head |
| LogArea.Area.Unlink | libmultipath/log.c:183-192 | the head moves on to the next message, the last record points there, and the old one is cleared |
| LogArea.Area.Call | libmultipath/log.c:109-195 | one call appends at most the message it accepted and removes at most the front one |
| LogArea.Area.Run | libmultipath/log.c:109-195 | on an ample area any run, and on any area a run that stays inside it, leaves the modelled state, results and messages; on an ample ring that is a first-in first-out queue |
| LogThread.StepKeepsInv | libmultipath/log_pthread.c:26-82 | every step of every thread keeps lock ownership, announcement and conservation of messages, and lets the log thread leave only after a stop request |
| LogThread.RunKeepsInv | libmultipath/log_pthread.c:26-82 | the invariant holds after every interleaving of any number of callers |
| LogThread.NoLostWakeup | libmultipath/log_pthread.c:70-80 | whenever the log thread is blocked in the condition wait and the queue is not empty, some caller stands between its enqueue and its signal |
| LogThread.NothingLost | libmultipath/log_pthread.c:46-57 | in every reachable state the accepted messages are those printed, then the one in the buffer, then those queued, in order |
| LogThread.InternalStepCosts | libmultipath/log_pthread.c:26-82 | every step of a call already begun lowers a natural number |
| LogThread.FinishingIsBounded | libmultipath/log_pthread.c:26-82 | without new calls every schedule ends after a bounded number of steps |
| LogThread.StuckIsFinished | libmultipath/log_pthread.c:26-126 | no deadlock: a state in which nobody can move has no caller inside and an idle log thread with an empty queue, or one that a complete stop has ended |
| LogThread.Delivery | libmultipath/log_pthread.c:26-126 | once no new call begins, every schedule ends after a bounded number of steps, and a state that can go no further has printed everything accepted, in order, unless log_thread_stop ran to its end |
| HostOrder.PathGroup.StorePath | libmultipath/structs.c:331-353 | a path with neither device number nor name is refused and nothing changes; any other is appended |
| HostOrder.FindHost | libmultipath/configure.c:103-112 | the first host group of the path's host number, or none |
| HostOrder.AddToAdapter | libmultipath/configure.c:102-130 | the path joins the host group of its number, which is opened at the end if it is new |
| HostOrder.TakeAdapter | libmultipath/configure.c:97-137 | one sweep moves exactly the paths of the adapter out of the group, in order |
| HostOrder.Restore | libmultipath/configure.c:141-154 | after a failure every path of every host group is appended to the path group again |
| HostOrder.GroupByHostAdapter | libmultipath/configure.c:53-157 | success if and only if every path has an adapter name and can be stored; then two paths share a host group exactly when they agree on adapter name and host number, each group listing them in order; on failure the path group holds the same multiset of paths |
| HostOrder.LapAndTurn | libmultipath/configure.c:202-205 | what a cursor modulo its size stands for: the number of laps and the place in the lap |
| HostOrder.NextTurn | libmultipath/configure.c:183-189 | every place of a modular cursor comes round again |
| HostOrder.MergeStep | libmultipath/configure.c:170-206 | one turn of the merge moves one path or passes an empty host group, and keeps the multiset of moved and remaining paths |
| HostOrder.NextOffer | libmultipath/configure.c:183-189 | while paths are left, the two cursors reach a host group that has one |
| HostOrder.MergeOne | libmultipath/configure.c:170-206 | a turn of the loop never takes the failure return on the groups the split produces |
| HostOrder.OrderPaths | libmultipath/configure.c:162-212 | the alternating merge ends, by paths left and the distance of both cursors to a host group with a path, moves every path and returns 0 |
| HostOrder.GroupOrderKept | libmultipath/configure.c:191-198 | paths of one host group come out in the order they had |
| HostOrder.DrainedHasTakenAll | libmultipath/configure.c:170-211 | when the loop ends each host group has been taken to its end |
| HostOrder.MergeIsStable | libmultipath/configure.c:162-212 | for every adapter and host the final order lists exactly its original paths, in their original order |
| HostOrder.AlternatesWhileFull | libmultipath/configure.c:183-205 | as long as no empty host group was passed, path k comes from adapter k mod A and from its host group (k div A) mod H |
| HostOrder.EmittedGrows | libmultipath/configure.c:191-206 | later turns only append to the order |
| HostOrder.MergeAlternates | libmultipath/configure.c:162-212 | for as long as every stop of the cursors has a path, the paths of the final order are those of the stops |
| HostOrder.RrOptimizePathOrder | libmultipath/configure.c:217-262 | returns 0 and keeps the multiset of paths in every outcome; leaves the order alone when a path has a protocol outside the list; otherwise, all adapter names present, the order is the complete stable alternation, and while no empty host group was passed its path k is that of stop k |
| AliasCodec.ValueOfSuffix | libmultipath/alias.c:76-82 | reading the base-26 letters of an id gives the id |
| AliasCodec.SuffixOfValue | libmultipath/alias.c:107-117 | the letters of the id that letters stand for are those letters: the code is a bijection |
| AliasCodec.EightLettersOverflow | libmultipath/alias.c:103-105 | every name of more than seven letters stands for an id above INT_MAX |
| AliasCodec.FormatDevname | libmultipath/alias.c:64-88 | with room for prefix, letters and the final zero the buffer holds the alias and its length is returned; otherwise -1 |
| AliasCodec.WriteLetters | libmultipath/alias.c:76-82 | the letters of the id stand, right-aligned, at the end of the buffer, or do not fit above the prefix |
| AliasCodec.MoveDown | libmultipath/alias.c:86-86 | memmove towards lower addresses copies the overlapping bytes unharmed |
| AliasCodec.ScanDevname | libmultipath/alias.c:90-120 | the id of prefix and letters, or -1; no step of the arithmetic leaves the range of int |
| AliasCodec.ScanLetters | libmultipath/alias.c:107-119 | the running value is the id of the letters read; the guard stops exactly before INT_MAX would be passed |
| AliasCodec.ScanInvertsFormat | libmultipath/alias.c:64-120 | scanning a formatted alias gives its id for every id from 1 to INT_MAX |
| AliasCodec.FormatInvertsScan | libmultipath/alias.c:64-120 | formatting the scanned id of a user-friendly name gives it back if and only if no blank follows the prefix |
| AliasCodec.GuardsAreExact | libmultipath/alias.c:103-113 | letters are refused when and only when their id is above INT_MAX |
| AliasCodec.ScanIgnoresWhatFollowsABlank | libmultipath/alias.c:108-108 | such a name: it scans to the id of what is before the blank, and formatting does not give it back |
| BindingsFile.LinesAppend | libmultipath/alias.c:142-142 | for every text: an appended line is read as one more line, the others as before, if and only if the text ends in a newline or its last read filled the buffer |
| BindingsFile.ParseBindingLine | libmultipath/alias.c:148-167 | the line written for a binding parses to its alias and wwid |
| BindingsFile.LookupBinding | libmultipath/alias.c:129-198 | 0 and the alias of the first line of the wwid; else an id that scans from no line, malformed ones included; -1 only if INT_MAX itself is in use |
| BindingsFile.RlookupBinding | libmultipath/alias.c:200-241 | the wwid of the first line of the alias whose wwid fits its buffer |
| BindingsFile.ReverseMatchIsBinding | libmultipath/alias.c:200-241 | the reverse search finds a binding of the alias, and none exactly when every wwid that has the alias is longer than its buffer |
| BindingsFile.UnusedAliasIsNew | libmultipath/alias.c:154-166 | the alias of an id that scans from no line is bound nowhere |
| BindingsFile.AddBinds | libmultipath/alias.c:262-281 | a written binding is one more binding of the file |
| BindingsFile.DistinctSnoc | libmultipath/alias.c:262-281 | one more binding keeps aliases and wwids distinct exactly when both are new |
| BindingsFile.CommentsBindNothing | libmultipath/alias.c:148-153 | comment lines such as those of the header bind nothing |
| BindingsFile.File.Open | libmultipath/alias.c:305-307 | opening a file gives an empty one the header and fails only when that cannot be written |
| BindingsFile.File.FormatBinding | libmultipath/alias.c:255-266 | the line of alias and wwid, and the alias cut out of it, when the id is positive and the line fits |
| BindingsFile.File.AllocateBinding | libmultipath/alias.c:243-293 | a positive id whose line fits is appended as prefix and letters with the wwid; anything else leaves the file alone |
| BindingsFile.File.HolderOf | libmultipath/alias.c:318-332 | a wwid that holds the alias, or that only over-long ones do |
| BindingsFile.File.AliasOf | libmultipath/alias.c:334-339 | the alias a wwid has, or that it has none |
| BindingsFile.File.BindOldAlias | libmultipath/alias.c:341-356 | the old alias is bound to the wwid under that very name exactly when it is a name of the prefix, the line fits and the file may be written |
| BindingsFile.File.BindFree | libmultipath/alias.c:388-407 | a binding under a free id gives the wwid a name that nobody has |
| BindingsFile.File.GetUserFriendlyAlias | libmultipath/alias.c:365-411 | an answer is a binding of the wwid in the file; at most one binding is added, for this wwid, and distinct bindings stay distinct; a wwid already bound is answered |
| BindingsFile.File.UseExistingAlias | libmultipath/alias.c:295-363 | for every file: a line is added exactly when no wwid of legal length has the alias, the wwid has none, the alias is a name of the prefix and the line fits; distinct bindings clash afterwards exactly when an over-long wwid had the alias |
| BindingsFile.OneAliasPerWwid | libmultipath/alias.c:165-182 | in a file of distinct bindings two entries share the wwid exactly when they share the alias |
| BindingsFile.Run | libmultipath/alias.c:295-411 | over any run of both calls with any prefixes no binding is lost; and unless a call asks for the alias of an over-long wwid, aliases and wwids stay distinct, and two answered calls get the same alias exactly when they ask for the same wwid |
| AliasSettings.StrcmpTransitive | libmultipath/alias.c:494-494 | strcmp orders strings |
| AliasSettings.InsertKeepsSorted | libmultipath/alias.c:503-510 | inserting behind the last smaller alias keeps the table strictly sorted |
| AliasSettings.Table.AddBinding | libmultipath/alias.c:483-516 | exists, conflict or added according to the alias's entry; the table stays strictly sorted and gains just the new entry |
| AliasSettings.FirstWinsIsFirst | libmultipath/alias.c:616-626 | of several definitions of an alias the first one counts |
| AliasSettings.CheckBindingsFile | libmultipath/alias.c:574-637 | the table shows, for every alias, the first line that does not contradict multipath.conf; -1 if and only if some line contradicts it or an earlier line |
| AliasSettings.SettledUnambiguous | libmultipath/alias.c:668-679 | after the first loop no alias of multipath.conf is defined for two wwids |
| AliasSettings.UnambiguousIsSettled | libmultipath/alias.c:668-679 | a table without such conflicts is left as it is |
| AliasSettings.AgreesWithEveryEntry | libmultipath/alias.c:607-613 | an alias on which the file agrees with the entry found agrees with every entry for it |
| AliasSettings.WrittenReadsBack | libmultipath/alias.c:518-543 | reading a written table gives the same bindings in the same order |
| AliasSettings.WriteBindingsFile | libmultipath/alias.c:518-543 | a text is written if and only if every line fits its buffer; it is the header and the lines |
| AliasSettings.AllLinesAppend | libmultipath/alias.c:584-584 | a complete line appended to a terminated text is one more line |
| AliasSettings.Config.SettleMpTable | libmultipath/alias.c:667-681 | the first entry for an alias keeps it, entries for another wwid lose it |
| AliasSettings.Config.CheckFile | libmultipath/alias.c:690-696 | what becomes of an open file: nothing when it is consistent, otherwise the repaired file, or -1 |
| AliasSettings.Config.CheckAliasSettings | libmultipath/alias.c:660-705 | 0 on an open file means that mptable and file each map an alias to one wwid and agree; a file that was consistent only gets its header; a repaired one is sorted and holds the first agreeing line of each alias; an inconsistent file that may not be written gives -1; a file that cannot be opened is not looked at |
| AliasSettings.Config.CheckTwice | libmultipath/alias.c:660-705 | after a 0 the second run returns 0 and changes neither table nor file |
| Words.DecRoundTrip | libmultipath/dmparser.c:91-92 | printing a number and reading it with atoi gives the number |
| Words.Strstr | libmultipath/structs.c:602-604 | the first occurrence, and none exactly when the text does not contain the word |
| Words.OccursInWord | libmultipath/structs.c:691-695 | something without blanks never occurs across two words |
| Words.ContainsWord | libmultipath/structs.c:651-653 | a text of words contains a word if and only if one of its words does |
| Features.AddFeature | libmultipath/structs.c:574-636 | the result of every branch: ignored names, a name with blanks, a missing string, a name already contained, a string without count, and the new count with the name behind the old words |
| Features.AddCounts | libmultipath/structs.c:602-633 | adding a name that is nowhere in a counted string gives the counted string with one more word |
| Features.RemoveFeature | libmultipath/structs.c:638-745 | count and text after removal for every string whose pointers stay inside it |
| Features.CutOut | libmultipath/structs.c:703-738 | the copy of remove_feature: everything but the bytes at the occurrence, blanks before them included |
| Features.StepBack | libmultipath/structs.c:719-723 | the scan back over the blanks before the occurrence |
| Features.CopyRest | libmultipath/structs.c:730-738 | the rest of the string behind the occurrence with one blank before it |
| Features.RemoveLeaves | libmultipath/structs.c:638-745 | what is left of every counted string that contains the name: "0" for an only word, otherwise the count less one and the words with the first occurrence cut out |
| Features.RemoveRightIff | libmultipath/structs.c:638-745 | removing a name from a counted string gives the counted string without the first feature of that name if and only if the first word that contains the name is the name; in all other cases, the only word and a name that is no feature included, the result is another string |
| Features.RemoveUndoesAdd | libmultipath/structs.c:574-745 | removing a non-numeric name that was just added gives back the single-spaced string |
| Features.ReconcileFeaturesWithOptions | libmultipath/propsel.c:339-391 | queue_if_no_path and retain_attached_hw_handler leave the string with its count corrected, and set their options only where these were undefined |
| Features.AddDerivedFeatures | libmultipath/dmparser.c:82-87 | the features are added according to no_path_retry, retain_hwhandler and the kernel version, behind the words that were there and counted |
| Features.DerivedCounts | libmultipath/dmparser.c:82-87 | the derived features are counted |
| Features.SelectAndAssemble | libmultipath/propsel.c:393-410 | the table has queue_if_no_path if and only if no_path_retry is neither undefined nor fail, has the right count, and keeps every other feature |
| DmTable.GetWord | libmultipath/util.c:86-127 | the next word and how far to advance, 0 for the last word of the string |
| DmTable.ReadsNext | libmultipath/util.c:86-127 | on a text of words the cursor yields one word after the other |
| DmTable.ReadCounted | libmultipath/dmparser.c:149-171 | a count and its words are read and merged with single blanks |
| DmTable.ReadSelector | libmultipath/dmparser.c:234-259 | the selector of the first group is kept, that of later groups skipped |
| DmTable.ReadPath | libmultipath/dmparser.c:290-340 | a path is the known one of its device number or a new one, and its argument sets minio |
| DmTable.ReadPaths | libmultipath/dmparser.c:290-340 | the paths of a group in order |
| DmTable.ReadGroup | libmultipath/dmparser.c:229-341 | a path group with its number |
| DmTable.Multipath.ReadGroups | libmultipath/dmparser.c:229-341 | all groups in order |
| DmTable.Multipath.Disassemble | libmultipath/dmparser.c:128-349 | every well-counted table is accepted, and its features, handler, selector, group to try first, groups and minio are found; any other input ends with 0 or 1 |
| DmTable.AppendPaths | libmultipath/dmparser.c:96-109 | path entries are printed until a device number is missing or the buffer is full |
| DmTable.AssembleMap | libmultipath/dmparser.c:64-118 | 0 if and only if every path has a device number and the table fits; then the buffer holds the table, whose parts are fixed by MapText |
| DmTable.MapTextIs | libmultipath/dmparser.c:89-109 | the printed table is the sequence of words a parser has to find |
| DmTable.GroupsRecovered | libmultipath/dmparser.c:229-341 | the parsed groups list the printed device numbers in order, with the number of their group |
| DmTable.RoundTrip | libmultipath/dmparser.c:64-349 | parsing the printed table into a fresh map recovers features, hardware handler, selector, nextpg = bestpg and every group's device numbers in order with their group numbers |
| DmTable.LastDecides | libmultipath/dmparser.c:319-338 | minio is what the last path's argument stands for, or stays when there is no path |
| DmTable.MinioRecoveredIff | libmultipath/dmparser.c:100-109 | minio comes back exactly when weights are not by priority, or it is 0, or the last path's factor is undone: under the round-robin selector by a known priority that is not larger and leaves less than one over, under any other by being 1 |
| DmTable.KnownPriorityRecovers | libmultipath/dmparser.c:319-338 | under the round-robin selector minio comes back when the last path is known with the priority it was printed with |
| PrkeyFile.Search | libmultipath/prkey.c:46-53 | the first place where the wwid stands between a blank and a newline, although whole occurrences are skipped |
| PrkeyFile.LastNewline | libmultipath/prkey.c:66-66 | the last newline of the buffer |
| PrkeyFile.HitIsLine | libmultipath/prkey.c:46-53 | a hit in a window is the end of a complete line |
| PrkeyFile.LineIsHit | libmultipath/prkey.c:46-53 | every complete line of the wwid is a hit in the window |
| PrkeyFile.HitLocates | libmultipath/prkey.c:54-65 | the place 19 bytes before the first hit of a window is the beginning of the wwid's first line in the whole file when that is a key line, and fails the test otherwise |
| PrkeyFile.MissGoesOn | libmultipath/prkey.c:66-71 | a window without a hit passes at least one line, none of the wwid's, and the next window begins with a line |
| PrkeyFile.Locate | libmultipath/prkey.c:27-72 | the sliding window finds the line a whole-file scan would find, reports it as malformed exactly when it is no key line, finds nothing if the scan would not, and ends |
| PrkeyFile.HeaderIsFindable | libmultipath/prkey.h:7-14 | below the header no wwid is mistaken for one whose line began earlier |
| PrkeyFile.FindableKept | libmultipath/prkey.c:80-110 | and writing other wwids keeps it so |
| PrkeyFile.OneEnding | libmultipath/prkey.c:48-49 | no line ends with two different wwids |
| PrkeyFile.OthersUnchanged | libmultipath/prkey.c:80-110 | setting or erasing one wwid changes no other wwid's answer |
| PrkeyFile.OneLinePerWwid | libmultipath/prkey.c:80-110 | no wwid gets a second line, erased lines counted |
| PrkeyFile.SetThenGet | libmultipath/prkey.c:73-110 | a key that was set is read back; an erased one is absent |
| PrkeyFile.EraseBytes | libmultipath/prkey.c:82-96 | one # over the first byte is the erased line and nothing else |
| PrkeyFile.SetBytes | libmultipath/prkey.c:97-110 | overwriting in place or appending is the new key line and nothing else |
| PrkeyFile.KeyTextRoundTrip | libmultipath/prkey.c:164-174 | every 64-bit key and its APTPL flag survive their 18 characters |
| PrkeyFile.HeaderSuits | libmultipath/prkey.h:7-14 | the wwids that can be stored below the header are all but the five words that end a header line |
| PrkeyFile.HeaderIsEmpty | libmultipath/prkey.h:7-14 | a new file holds no key |
| PrkeyFile.StoreIsMapStore | libmultipath/prkey.c:140-187 | storing in the file is storing in the map, for every wwid at once |
| PrkeyFile.File.DoPrkey | libmultipath/prkey.c:20-111 | read returns the key of a live line or 1; write sets, erases or does nothing, and the lines afterwards are given exactly; a first line of another form gives 1 and no change |
| PrkeyFile.File.GetPrkey | libmultipath/prkey.c:113-138 | the key and flag of the wwid, or 1 |
| PrkeyFile.File.SetPrkey | libmultipath/prkey.c:140-187 | key 0 erases, any other is stored; a malformed line gives 1 and no change |
| PrkeyFile.File.Do | libmultipath/prkey.c:113-187 | one operation does to the file what it does to the map |
| PrkeyFile.File.Run | libmultipath/prkey.c:113-187 | any run of set, erase and get answers as on a finite map and leaves at most one line to a wwid |
| Quoting.CollapsePairs | libmultipath/parser.c:290-298 | the loop that shortens the token in place replaces each pair of quotes, from the left, by one |
| Quoting.ScanToken | libmultipath/parser.c:241-300 | one token, at least one character further on |
| Quoting.AllocStrvec | libmultipath/parser.c:202-314 | the tokens of any line; every turn of the loop advances |
| Quoting.SetValue | libmultipath/parser.c:327-388 | the value of a token vector: an unquoted word, or the words between quote marks |
| Quoting.PrintStr | libmultipath/dict.c:160-202 | the quoted text with quotes doubled whenever it and its NUL fit; otherwise at least the buffer's size is returned, and the text is the beginning of the quoted one, up to one byte short of the buffer |
| Quoting.CollapseEscape | libmultipath/dict.c:180-191 | taking one of each pair of quotes undoes the doubling |
| Quoting.StringEndAfter | libmultipath/parser.c:265-279 | inside a string the scan stops exactly at the closing quote of a printed value |
| Quoting.RoundTrip | libmultipath/parser.c:202-388 | a printed value, behind any indent and keyword and before blanks or a comment, is tokenized to keyword, mark, value, mark and read back unchanged, whatever quotes, braces or comment characters it holds |
| Quoting.OneWordPerString | libmultipath/parser.c:241-300 | between two quote marks stands at most one word, on every line |
| Quoting.QuotedValueIsOneWord | libmultipath/parser.c:357-383 | a quoted value is that one word; words are never joined |
| Crc32.StepXor | kpartx/crc32.c:57-59 | a bit-step is linear over exclusive or |
| Crc32.StepsInjective | kpartx/crc32.c:57-59 | no two register values are taken to one |
| Crc32.ByteAtOnceLe | kpartx/crc32.c:115-115 | eight bit-steps are one shift by a byte and the eight bit-steps of the byte shifted out |
| Crc32.ByteAtOnceBe | kpartx/crc32.c:218-218 | the same for the big-endian form |
| Crc32.FillRowLe | kpartx/crc32.c:87-88 | the inner loop extends the filled entries from the multiples of 2i to those of i |
| Crc32.Crc32InitLe | kpartx/crc32.c:73-91 | the init loops fill all 256 entries with eight bit-steps of the index |
| Crc32.FillRowBe | kpartx/crc32.c:189-190 | the inner loop extends the filled entries from i to 2i |
| Crc32.Crc32InitBe | kpartx/crc32.c:175-193 | the init loops fill all 256 entries with eight bit-steps of the index in the top byte |
| Crc32.Crc32LeBits | kpartx/crc32.c:53-62 | the bit-at-a-time loop computes the CRC the others are measured against |
| Crc32.Crc32BeBits | kpartx/crc32.c:156-167 | the same for the big-endian form |
| Crc32.Crc32Le | kpartx/crc32.c:111-129 | for every seed and message the table-driven loop gives the bitwise CRC |
| Crc32.Crc32Be | kpartx/crc32.c:214-232 | the same for the big-endian form |
| Crc32.Composes | kpartx/crc32.c:45-51 | the CRC of a concatenation is that of the second part seeded with that of the first, so it can be computed incrementally |
| Crc32.MirrorForms | kpartx/crc32.c:22-23 | the big-endian form is the little-endian one with the bits of seed, bytes and result reversed |
| Crc32.DetectsBurstLe | kpartx/crc32.c:53-62 | two messages that differ only within four adjacent bytes never have the same CRC |
| Crc32.DetectsBurstBe | kpartx/crc32.c:156-167 | the same for the big-endian form |
| PathGroups.PathGroupPrioUpdate | libmultipath/switchgroup.c:10-37 | average priority of the enabled paths, truncated toward zero, their number, and the marginal flag raised when all paths are marginal, never lowered |
| PathGroups.VectorMoveUp | libmultipath/vector.c:61-75 | one slot moves down, those between move up by one |
| PathGroups.SortSlot | libmultipath/pgpolicies.c:68-85 | a group goes behind the last one that may precede it |
| PathGroups.SortPathgroups | libmultipath/pgpolicies.c:61-87 | the groups, each brought up to date, in the order of an insertion sort |
| PathGroups.SortIsStable | libmultipath/pgpolicies.c:61-87 | a permutation, sorted by marginal ascending, priority and enabled paths descending, that keeps the order of groups of one rank |
| PathGroups.MatchesAreEquivalences | libmultipath/pgpolicies.c:174-193 | the three match functions are equivalence relations |
| PathGroups.CollectMatching | libmultipath/pgpolicies.c:224-245 | the inner loop takes exactly the free paths that match, in order, and marks them |
| PathGroups.GroupByMatch | libmultipath/pgpolicies.c:195-257 | success if and only if every path can be stored; then the groups are the classes of the match |
| PathGroups.ClassIs | libmultipath/pgpolicies.c:195-257 | each group is all paths that match its head, in order |
| PathGroups.TogetherIffMatching | libmultipath/pgpolicies.c:195-257 | two paths share a group if and only if they match |
| PathGroups.ClassesAreApart | libmultipath/pgpolicies.c:195-257 | no path is in two groups |
| PathGroups.OnePathPerGroup | libmultipath/pgpolicies.c:283-309 | one group for each path, in order |
| PathGroups.OneGroup | libmultipath/pgpolicies.c:311-338 | one group with all paths, in order |
| PathGroups.SplitMarginalPaths | libmultipath/pgpolicies.c:89-132 | both kinds in their order, exactly when both are there and every path can be stored |
| PathGroups.Multipath.GroupPaths | libmultipath/pgpolicies.c:134-172 | every outcome: nothing to group, no policy, a path that cannot be stored, or the sorted groups behind those already there |
| PathGroups.OutcomeKeepsPaths | libmultipath/pgpolicies.c:134-172 | no path is lost or doubled |
| PathGroups.GroupsArePure | libmultipath/pgpolicies.c:89-160 | with marginal grouping no group mixes marginal and normal paths |
| PathGroups.NormalBeforeMarginal | libmultipath/pgpolicies.c:61-160 | with marginal grouping every normal group precedes every marginal one, and the flag tells which it is |
| PathGroups.ShareGroupIff | libmultipath/pgpolicies.c:134-172 | in the final groups two paths are together if and only if the policy matches them and, with marginal grouping, they are of one kind |
| PathGroups.Select | libmultipath/switchgroup.c:49-75 | the groups are brought up to date; the earliest of the best normal groups with an enabled path is chosen; without one, the earliest of the best groups with a positive priority, or with priority 0 and two enabled paths; without either, the first |
| PathGroups.Consider | libmultipath/switchgroup.c:53-74 | one group against the best so far |
| PathGroups.Multipath.SelectPathGroup | libmultipath/switchgroup.c:39-77 | the number of that group, and 1 without groups |
| PathGroups.BestOfSorted | libmultipath/switchgroup.c:39-77 | on sorted groups that is the first group eligible |
| PathGroups.SelectAfterSort | libmultipath/pgpolicies.c:61-87 | selecting from the output of the sort updates nothing and picks the first normal group with an enabled path, else the first eligible one, else the first |
| HwTable.StrmatchIsEquality | libmultipath/config.c:30-49 | two entries match exactly when vendor, product and revision agree, unset ones included |
| HwTable.MergeStrs | libmultipath/config.c:324-328 | what the destination lacks is taken over, until an empty string stops the merge |
| HwTable.MergeNums | libmultipath/config.c:330-332 | zero means not set |
| HwTable.MergeHwe | libmultipath/config.c:335-386 | every field but the three reconciled ones is the destination's, or the source's where that was unset |
| HwTable.MergeKeepsLast | libmultipath/config.c:559-560 | merging an entry into the next one of its key changes no last set value, of any key or field |
| HwTable.FindDuplicate | libmultipath/config.c:552-554 | the first later entry with the same vendor, product and revision |
| HwTable.Pass | libmultipath/config.c:543-573 | one pass drops incomplete new entries and either ends or merges one duplicate and shortens the table |
| HwTable.FactorizeHwtable | libmultipath/config.c:536-575 | the restarts end; no two entries share a key, no new entry lacks vendor or product, no complete key is lost, and each kept field is the last set value among the key's original entries |
| HwTable.MergeReservation | libmultipath/config.c:402-408 | key, flags and their source are taken together or not at all |
| HwTable.MergeMpe | libmultipath/config.c:388-437 | the fields of a multipath section are filled from an earlier one |
| HwTable.LastSourceCounts | libmultipath/config.c:402-408 | the reservation that counts for a wwid is that of its last section with a source |
| HwTable.MergeKeepsReserved | libmultipath/config.c:439-458 | merging a section into the next one of its wwid changes no reservation |
| HwTable.MergeMptable | libmultipath/config.c:439-458 | no two sections share a wwid, none is lost, each field is the last set value among the wwid's original sections, and key, flags and source of a reservation are those of its last section that has a source |
| ProutRegister.ThreadKeepsInv | libmpathpersist/mpath_persist.c:506-515 | a command of any thread, at any time, keeps the invariant |
| ProutRegister.MainKeepsInv | libmpathpersist/mpath_persist.c:421-500 | every step of the caller keeps the invariant |
| ProutRegister.RunKeepsInv | libmpathpersist/mpath_persist.c:421-515 | the invariant holds in every interleaving |
| ProutRegister.ServedOnce | libmpathpersist/mpath_persist.c:432-441 | no nexus is registered by two threads |
| ProutRegister.ResultIsVerdict | libmpathpersist/mpath_persist.c:459-474 | the result is success if and only if every attempted path succeeded, and conflict if any path met a conflict |
| ProutRegister.SuccessRegistersAll | libmpathpersist/mpath_persist.c:421-474 | on success every active path is registered with the new key, with all target ports also those that got no thread |
| ProutRegister.ConflictRegistersNone | libmpathpersist/mpath_persist.c:475-500 | after a conflict, with a non-zero key and a rollback without errors, no path of the map stays registered, nor one that only another thread of its host had registered |
| ProutRegister.OneThreadPerHost | libmpathpersist/mpath_persist.c:427-456 | with all target ports a known host gets at most one started thread, and every active path has a thread or a host that has one |
| ProutRegister.ParametersRewrittenAlone | libmpathpersist/mpath_persist.c:475-478 | no command is under way while the shared parameters are rewritten for the rollback |
| ProutRegister.EveryMoveCounts | libmpathpersist/mpath_persist.c:421-515 | every step lowers the number of steps still possible |
| ProutRegister.RunsAreBounded | libmpathpersist/mpath_persist.c:421-515 | no interleaving takes more than 6n + 4 steps for n paths |
| ProutRegister.NeverStuck | libmpathpersist/mpath_persist.c:421-500 | until the call has returned, the caller or a thread can move |

## Left out

- libdevmapper, udev, sysfs, ioctl, sockets, JSON and configuration-file reading beyond one line: foreign calls or plain plumbing.
- Printing of tables and statistics, logging texts, regular-expression matching of device entries: formatting, or calls into libraries.
- Memory exhaustion, read and write errors, file locking and signals: a file operation is atomic and succeeds, or the file is read-only.
- Files are sequences of characters without NUL; temporary files and `rename` of the bindings file are one write.
- LogThread: does not model `pthread_cancel` and what `log_thread_stop` does after its signal, nor `log_safe` without a log thread.
- HostOrder: adapter and host groups, local to the ordering, are values that the methods replace; `num_paths` and `num_hosts` are the lengths of their lists. Aliasing between groups is not captured, the path group itself is an object.
- BindingsFile.File.UseExistingAlias: an empty wwid is outside; names with blanks or comment characters, which a line cannot hold, are outside for all operations of the file.
- AliasSettings.Config.CheckAliasSettings: entries of multipath.conf without a wwid count as defining nothing.
- Features.AddFeature: the count is not bounded.
- Features.RemoveFeature: requires that the occurrence stands behind the count and that blanks before it do not reach back to the count; outside that the C code reads before the string.
- Features.ReconcileFeaturesWithOptions: requires a counted string in which no other word contains one of the two names and neither is there twice; otherwise the removal mangles the string or leaves one behind.
- DmTable.Multipath.Disassemble: for a table that is not well-counted only the return value is stated; where the C code would read a missing argument the model returns 1.
- DmTable.RoundTrip: selectors with arguments are outside, since the parser skips the arguments; a path that stands in two groups is listed twice, and `pgindex` is kept with the listing.
- DmTable.AssembleMap: the product of minio and priority is not bounded.
- PrkeyFile.File.DoPrkey: files in which a too short line ends with the wwid while another line begins 19 bytes before it are outside; no operation makes one out of a new file.
- PrkeyFile.File.SetPrkey: selecting the reservation key again after the write, whose outcome can turn the result into 1, is not modelled.
- Quoting.PrintStr: after a cut behind the last quote the C code stores a NUL where the whole text would have ended; that store is not modelled.
- PathGroups: path groups are values in the list of their map, without the back pointer; sums of priorities are not bounded.
- PathGroups.PathGroupPrioUpdate: every group has a path list; the branch for a missing one, which a new group never has, is outside.
- HwTable: an entry is its key and the set fields by name; the three fields that `reconcile_features_with_options` works on go through an arbitrary function that yields no empty string.
- HwTable.FactorizeHwtable: requires entries without empty strings, since an empty one aborts a merge half-way.
- ProutRegister: the nexuses start unregistered and the existing key is 0; requests with SPEC_I_PT, whose shared flag changes while threads run, are outside, as are joins that fail and commands that report a thread error; a call without active path returns an error before any step.
- ProutRegister.ConflictRegistersNone: a rollback thread that cannot be created or whose command fails may leave its path registered.
