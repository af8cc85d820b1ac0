# yolops maintenance commands, modelled in Dafny

This project models the two storage-maintenance commands of the `yolops` toolbox.

**`expire-cache`: the ensure-free eviction engine.** When fewer than `ensure_free` bytes are free on a filesystem, the command computes the excess (`ensure_free - free`).
- It walks the cache directory and pushes `(mtime, size, path)` for every file into a min-max heap.
- Whenever more than the excess is tracked, it drops the newest tracked file with `popmax`. Dropped files stay on disk.
- It then pops the oldest files with `popmin` and deletes them until the excess is freed or the heap is empty.

**`p4-maintenance`: the journal-rotation rules.**
- It reads `p4dctl list` into servers. Each line is split at runs of spaces. The config items `k=v` come first, then the `p4d -cshow` settings.
- It keeps the server asked for, or all of them, and raises a usage error when the name is not listed.
- It orders each server's journals newest first, using a key made from the numeric components of the file name.
- It walks that list. The first `skip` journals are left alone. The journals up to index `keep` are kept, and compressed unless already `.gz`. The rest are deleted. It counts each category.

The modules follow the program:
- `Wrappers`: Option and Result.
- `Accounting`: file records and byte sums.
- `MinMaxHeaps`: the heap, a class whose abstract view is a multiset.
- `ExpireCache`: the scan, the drain and the command as methods, proved against ghost accounting predicates.
- `Text`: `str.split`, `str.strip`, `re.split(' +', …)` and decimal digits, as functions with their laws.
- `P4Maintenance`: the config and listing parsers, the server filter, the journal sort key, the stable sort, the rotation loop and the command.

Filesystem, process and clock effects are inputs or outputs of the model:
- The directory walk is a sequence of entries. An entry whose `stat` raised FileNotFoundError carries no stat.
- `disk_usage` is the `free` parameter.
- The `p4dctl list` output and its exit status are parameters.
- The regex matching of `p4d -cshow` is a function `show(name, root)`.
- `glob` (with `realpath`) is a function from pattern to paths.
- `unlink` and `gzip_file` are returned as the sequence of paths or actions the run would perform.

## Model

| member | source | states |
|---|---|---|
| ExpireCache.ExpireCache | yolops/commands/expire_cache.py:50-91 | `Discovered(entries)` stands for the records the walk yields. Returns nothing to do exactly when `ensure_free <= free`. Otherwise the discovered size is the sum of all stat'ed files. Tracked plus dropped files are every discovered file. The drops are logged in time order. After each discovered file and the trim that follows it, at most the excess is still tracked. Each drop took a newest tracked file while over budget. The drain frees exactly the tracked bytes, no more than the excess, oldest first. The drain stops short of the excess only when every discovered file was dropped or deleted. Whatever remains is empty files no older than the last deleted one. Each deleted file was popped while less than the excess was freed. The unlinked paths are the deleted records' paths, or none on a dry run. |
| ExpireCache.Scan | yolops/commands/expire_cache.py:60-75 | After the scan, the heap holds exactly the discovered records minus the dropped ones. The tracked size is their byte sum and at most the excess. The discovered size is the sum of all discovered records. Every drop is logged with the number of records found when it happened, in time order. After every prefix of the discovered records, the records not dropped by then hold at most the excess. Each drop took a newest tracked record while over budget. |
| ExpireCache.Trim | yolops/commands/expire_cache.py:72-75 | The popmax loop ends with at most the excess tracked and keeps the accounting. The earlier drops and their times stay a prefix of the log. Every new drop is logged at the current time. The heap loses exactly the newly dropped records. |
| ExpireCache.TrimStep | yolops/commands/expire_cache.py:73-75 | One popmax of a newest record while over budget subtracts its size, appends it to the log at the current time, and keeps the earlier log and the settled prefixes. |
| ExpireCache.SettledFind | yolops/commands/expire_cache.py:64-69 | Finding another record leaves every earlier prefix settled within the excess. |
| ExpireCache.SettledPush | yolops/commands/expire_cache.py:73-75 | A drop logged at the current time keeps the log in time order and changes no earlier prefix's drops. |
| ExpireCache.SettledClose | yolops/commands/expire_cache.py:73 | When the trim's loop guard fails, the prefix found so far is settled within the excess too. |
| ExpireCache.DropsByFirst | yolops/commands/expire_cache.py:73-75 | In a log kept in time order, if any drop happened by a given time, the first one did. |
| ExpireCache.Drain | yolops/commands/expire_cache.py:79-89 | Records leave the heap oldest first. `freed_size` and `freed` are the byte sum and count of the deleted records. The loop stops with the excess freed or the heap empty. Every record was popped while less than the excess was freed, so the drain stops at the first pop that reaches the excess (`StopsAtExcess`). `freed_size` equals the tracked size, and whatever is left is empty files. `unlink` receives every deleted path in order unless `dry_run`. |
| ExpireCache.Phases | yolops/commands/expire_cache.py:58-89 | Combining the scan with the drain: heap count plus dropped count is the discovered count. Deleted and dropped records are disjoint parts of the discovered ones. If the drain falls short of the excess, they are all of them. |
| ExpireCache.DropLogAt | yolops/commands/expire_cache.py:73-75 | Every logged drop happened while the tracked bytes exceeded the excess, and took a record that was tracked and no older than any tracked record. |
| ExpireCache.DropStep | yolops/commands/expire_cache.py:73-75 | Dropping a newest record while over budget subtracts its size from the tracked bytes and extends the log. |
| ExpireCache.FindStep | yolops/commands/expire_cache.py:66-69 | Inserting a found record adds its size to both the tracked and the discovered bytes. |
| ExpireCache.StopsAtExcessPush | yolops/commands/expire_cache.py:81-88 | A pop taken while less than the excess is freed keeps every deleted record popped before the excess was reached. |
| ExpireCache.StopsAtFirstPop | yolops/commands/expire_cache.py:81 | With 50 bytes to free, an old 50-byte file "a" and a newer empty file "z", deleting both is ruled out: the guard fails once "a" is freed, so "z" stays. |
| ExpireCache.DrainStep | yolops/commands/expire_cache.py:83-89 | Popping an oldest record keeps the deleted list sorted oldest first and the freed counters equal to its sum and length. |
| ExpireCache.DrainDone | yolops/commands/expire_cache.py:82 | When the loop guard fails with at most the excess tracked, everything tracked has been freed, and anything still in the heap has size 0. |
| ExpireCache.DiscoveredNext | yolops/commands/expire_cache.py:64-71 | `Discovered(entries)`, the records the walk yields, is defined entry by entry. Each entry contributes its record to the discovered stream when its stat succeeded, and nothing otherwise. |
| ExpireCache.UnderDelivery | yolops/commands/expire_cache.py:73-75 | The command may free less than the excess even when enough data exists. With 0 bytes free, 50 wanted, and an old and a new 30-byte file, the scan drops the new file. The drain then frees only 30 bytes, from the old one. |
| ExpireCache.ExampleScanned | yolops/commands/expire_cache.py:61-75 | In the under-delivery example, the scan finds 60 bytes, keeps one 30-byte file, and drops the new file. |
| ExpireCache.EagerTrim | yolops/commands/expire_cache.py:64-89 | The trim runs after every entry, not once at the end. With 0 bytes free, 50 wanted, a 60-byte file "a" of mtime 2, then a 10-byte file "b" of mtime 3, every outcome drops "a" right after it is found. The drain then deletes "b" alone and frees 10 bytes. |
| ExpireCache.EagerDrops | yolops/commands/expire_cache.py:72-75 | In the eager-trim example, the only drop log the scan can leave is "a", dropped once one record had been found. |
| ExpireCache.EagerScanned | yolops/commands/expire_cache.py:61-75 | In the eager-trim example, the scan drops "a" and keeps 10 bytes of "b" tracked. |
| ExpireCache.EagerDrained | yolops/commands/expire_cache.py:80-89 | In the eager-trim example, the drain deletes only "b", freeing 10 bytes. |
| ExpireCache.ExampleDrained | yolops/commands/expire_cache.py:80-89 | In the under-delivery example, the drain deletes only the old file: 30 bytes, 1 file, one unlinked path. |
| MinMaxHeaps.MinMaxHeap.Insert | yolops/commands/expire_cache.py:67 | The record joins the heap's multiset. |
| MinMaxHeaps.MinMaxHeap.PopMax | yolops/commands/expire_cache.py:74 | Removes one record no older than any other and returns it. Returns nothing exactly when the heap is empty. |
| MinMaxHeaps.MinMaxHeap.PopMin | yolops/commands/expire_cache.py:83 | Removes one record no newer than any other and returns it. Returns nothing exactly when the heap is empty. |
| MinMaxHeaps.MinMaxHeap.Len | yolops/commands/expire_cache.py:77 | `len(heap)` is the size of the heap's multiset. |
| MinMaxHeaps.MinMaxHeap.ArgMin | yolops/commands/expire_cache.py:83 | The position found holds a record whose mtime is least. |
| MinMaxHeaps.MinMaxHeap.ArgMax | yolops/commands/expire_cache.py:74 | The position found holds a record whose mtime is greatest. |
| MinMaxHeaps.MinMaxHeap.RemoveAt | yolops/commands/expire_cache.py:74 | Exactly the record at that position leaves the heap. |
| Accounting.TotalIsMSize | yolops/commands/expire_cache.py:68-75 | The byte sum of a sequence of records equals the byte sum of its multiset. The running counter therefore does not depend on heap order. |
| Accounting.MSizeRemove | yolops/commands/expire_cache.py:74-75 | Removing any record from the tracked set subtracts exactly its size, whichever record it is. |
| Accounting.MSizeAdd | yolops/commands/expire_cache.py:67-68 | Inserting a record adds exactly its size. |
| Accounting.MSizeZero | yolops/commands/expire_cache.py:82 | A tracked set of total size 0 holds only empty files. |
| Accounting.TotalAppend | yolops/commands/expire_cache.py:88 | Byte sums add over concatenation. |
| Accounting.OldestFirstPairwise | yolops/commands/expire_cache.py:82-83 | In a list deleted oldest first, every file is no newer than every later one. |
| Accounting.Paths | yolops/commands/expire_cache.py:87 | One path per record, in order. |
| P4Maintenance.ParseConfig | yolops/commands/p4_maintenance.py:11-14 | The config loop yields exactly the configuration `ConfigOf` defines, or its ValueError. |
| P4Maintenance.ConfigFails | yolops/commands/p4_maintenance.py:13 | An item without `=` makes the unpacking `k, v = …[0:2]` fail with a ValueError. |
| P4Maintenance.ConfigError | yolops/commands/p4_maintenance.py:13 | ValueError is the only failure of the config loop. |
| P4Maintenance.ConfigSucceeds | yolops/commands/p4_maintenance.py:12-14 | Items that all contain `=` always give a configuration. |
| P4Maintenance.ConfigKeys | yolops/commands/p4_maintenance.py:12-14 | A key is in the configuration if and only if some item has that key. |
| P4Maintenance.ConfigLast | yolops/commands/p4_maintenance.py:14 | A key maps to the value of the last item with that key. |
| P4Maintenance.KeyValue | yolops/commands/p4_maintenance.py:13 | The key is the text before the first `=`. The value is the text after it, up to a second `=` or the end. A third field after another `=` is ignored. |
| P4Maintenance.NewServer | yolops/commands/p4_maintenance.py:8-30 | `ServerOf(kind, name, items, show)` is the constructor `P4Server(t, name, items)`, and NewServer states it. The server gets its type, its name and the items' configuration, with the `-cshow` settings assigned over it in order. A missing `root` is a KeyError. |
| P4Maintenance.ServerRooted | yolops/commands/p4_maintenance.py:23 | Every constructed server's configuration has a `root`. The `-cshow` settings never remove it. |
| P4Maintenance.AssignedKeeps | yolops/commands/p4_maintenance.py:29 | Assigning settings never removes a key. |
| P4Maintenance.ListFieldsShape | yolops/commands/p4_maintenance.py:43 | No field of a stripped, split line contains a space. Unless the line is blank after stripping, no field is empty. |
| P4Maintenance.ParseSpacedLine | yolops/commands/p4_maintenance.py:43-44 | A line of non-empty space-free fields separated by runs of spaces, padded with whitespace, splits back into exactly those fields. Its type, name and items are fields 0, 2 and 3 onward. |
| P4Maintenance.ServerAtFields | yolops/commands/p4_maintenance.py:43-44 | `ServerAt(line, show)` is the loop body of lines 43-44. A line gives an IndexError when it has fewer than three fields. Otherwise it gives the server built from fields 0, 2 and 3 onward. |
| P4Maintenance.ReadLine | yolops/commands/p4_maintenance.py:43-44 | The loop body yields that line's server or its error. |
| P4Maintenance.Enumerate | yolops/commands/p4_maintenance.py:35-50 | The enumeration yields the servers of all lines in order. It fails with the first line's error, or with RuntimeError when `p4dctl` exits non-zero. |
| P4Maintenance.LineResults | yolops/commands/p4_maintenance.py:42-44 | One result per output line, each that line's server or error. |
| P4Maintenance.CollectSuccess | yolops/commands/p4_maintenance.py:42-48 | `Collect(rs, returncode)` is how `list(...)` consumes the generator. Collecting succeeds if and only if every line succeeds and the exit status is 0. |
| P4Maintenance.CollectValues | yolops/commands/p4_maintenance.py:42-48 | A successful collection holds every line's server, in order. |
| P4Maintenance.CollectFrom | yolops/commands/p4_maintenance.py:42-44 | Collection proceeds line by line: a line's error stops it, and otherwise its server goes in front of the rest. |
| P4Maintenance.ServersOfSuccess | yolops/commands/p4_maintenance.py:35-50 | `ServersOf(lines, show, returncode)` is `list(P4Server.Enumerate())`, defined as `Collect` of the per-line `ServerAt` results. `list(P4Server.Enumerate())` succeeds if and only if every line gives a server and the exit status is 0. |
| P4Maintenance.ServersOfValues | yolops/commands/p4_maintenance.py:42-44 | A successful enumeration has one server per line, in line order. |
| P4Maintenance.ServersRooted | yolops/commands/p4_maintenance.py:23 | Every enumerated server has a `root`. |
| P4Maintenance.NamedMembers | yolops/commands/p4_maintenance.py:85 | `Named(servers, name)` is the comprehension of line 85. The comprehension keeps exactly the listed servers with that name. |
| P4Maintenance.SelectServersSpec | yolops/commands/p4_maintenance.py:84-87 | `SelectServers(servers, name)` is the filter of lines 84-87 with its usage error. `all` selects every server. Any other name selects exactly the servers with that name, each as often as listed. The selection fails with UsageError(name) if and only if no server has that name. |
| P4Maintenance.NamedAppend | yolops/commands/p4_maintenance.py:85 | The comprehension keeps the listed order: filtering a concatenation filters each part in turn. |
| P4Maintenance.NamedCount | yolops/commands/p4_maintenance.py:85 | Each server with that name is kept as often as it is listed, and no other server is kept. |
| P4Maintenance.SelectedRooted | yolops/commands/p4_maintenance.py:84-87 | Every selected server is a listed one, so it has a `root`. |
| P4Maintenance.OrdinalKey | yolops/commands/p4_maintenance.py:65 | `JournalKey(x)` is the sort key of line 65. An all-digits component contributes minus its value to the sort key. Other components contribute 0. |
| P4Maintenance.HigherOrdinalFirst | yolops/commands/p4_maintenance.py:64-65 | Of two journals with the same prefix, the larger numeric component sorts first, whatever follows. So `jnl.10000.gz` comes before `jnl.3000.gz`, which comes before `jnl.900.gz`. |
| P4Maintenance.NewestFirst | yolops/commands/p4_maintenance.py:54-65 | In the sorted list, a journal with a higher ordinal comes at an earlier index than one with the same prefix and a lower ordinal. |
| P4Maintenance.LexLessIrreflexive | yolops/commands/p4_maintenance.py:65 | Python's list comparison is irreflexive. |
| P4Maintenance.LexLessTrans | yolops/commands/p4_maintenance.py:65 | Python's list comparison is transitive. |
| P4Maintenance.LexLessTotal | yolops/commands/p4_maintenance.py:65 | Python's list comparison is total. |
| P4Maintenance.LexLessPrefix | yolops/commands/p4_maintenance.py:65 | A common prefix does not change the order of two keys. |
| P4Maintenance.SortOrdered | yolops/commands/p4_maintenance.py:65 | The sort leaves the decorated pairs ordered by key. |
| P4Maintenance.SortJournalsOrdered | yolops/commands/p4_maintenance.py:65 | `SortJournals(js)` stands for `sorted(jlist, key=JournalKey)` and is a stable keyed insertion sort. It returns the journals ordered by key. |
| P4Maintenance.SortJournalsPerm | yolops/commands/p4_maintenance.py:63-65 | `sorted` returns the same paths, each as often as given. |
| P4Maintenance.SortStable | yolops/commands/p4_maintenance.py:65 | Pairs with equal keys keep their input order. |
| P4Maintenance.SortJournalsStable | yolops/commands/p4_maintenance.py:65 | Journals with equal keys keep their `glob` order. |
| P4Maintenance.InsertOrdered | yolops/commands/p4_maintenance.py:65 | One insertion step of the stable sort keeps the list ordered. |
| P4Maintenance.InsertStable | yolops/commands/p4_maintenance.py:65 | An inserted pair goes after every pair with the same key. |
| P4Maintenance.JournalsSpec | yolops/commands/p4_maintenance.py:52-65 | `Journals(s, glob)` is `P4Server.Journals`, using the pattern `JournalPattern(s)` and `SortJournals`. Without a (non-empty) `journalPrefix`, there are no journals. Otherwise the journals are the paths globbed for `<prefix>.jnl*`, each as often as globbed, ordered by key. Journals with equal keys keep their glob order. A relative prefix is joined to `root` first. |
| P4Maintenance.PathJoin | yolops/commands/p4_maintenance.py:61-62 | `os.path.join(a, b)` ends with `b`. An absolute `b` is returned as is. Otherwise the result starts with `a`, with exactly one `/` inserted when `a` is non-empty and does not end in `/`. |
| P4Maintenance.MaintainJournals | yolops/commands/p4_maintenance.py:91-107 | The loop's counters are `TallyOf` of the journals. The file operations are `PlanOf`, or none on a dry run, so the counters do not depend on `dry_run`. |
| P4Maintenance.TallyClosedForm | yolops/commands/p4_maintenance.py:93-107 | `Classify(n, skip, keep)` is the branch of lines 93-107 taken for index `n`. Indices below `skip`, or all indices when `skip < 0`, are skipped. Indices from there up to `keep`, or all when `keep < 0`, are kept. The rest are deleted. The three counts add up to the number of journals. `compressed` is the number of kept journals not ending in `.gz`. |
| P4Maintenance.CompressedCount | yolops/commands/p4_maintenance.py:96-102 | `compressed` is the number of indices of kept journals that do not end in `.gz`. |
| P4Maintenance.CompressibleLast | yolops/commands/p4_maintenance.py:92-102 | The compressible indices of a list are those of the list without its last journal, plus that journal's index if it is kept and not gzipped. |
| P4Maintenance.PlanCounts | yolops/commands/p4_maintenance.py:96-107 | `compressed` counts the `gzip_file` calls and `deleted` the `unlink` calls. Each compression is of a listed journal not ending in `.gz`, to that name plus `.gz`. Each unlink is of a listed journal. |
| P4Maintenance.TouchedIndices | yolops/commands/p4_maintenance.py:92-107 | The touched indices increase. An index is touched if and only if its journal is kept and not gzipped, or deleted. |
| P4Maintenance.PlanIndexed | yolops/commands/p4_maintenance.py:92-107 | The i-th file operation of a real run belongs to the i-th touched index n. It is `gzip_file(js[n], js[n] + '.gz')` when n is kept, and `unlink(js[n])` when n is deleted. Skipped journals are never touched. |
| P4Maintenance.NegativeKeepDeletesNothing | yolops/commands/p4_maintenance.py:96 | With the default `keep` of -1, no journal is deleted and every file operation is a compression. |
| P4Maintenance.NegativeSkipSkipsAll | yolops/commands/p4_maintenance.py:93 | A negative `skip` skips every journal and touches no file. |
| P4Maintenance.RemainingCount | yolops/commands/p4_maintenance.py:109-110 | The "remaining on disk" count, `skipped + kept`, is the number of journals minus the deleted ones. |
| P4Maintenance.MaintainServer | yolops/commands/p4_maintenance.py:89-110 | `ReportOf(s, glob, skip, keep, dryRun)` is one server's report: its `Journals`, their `TallyOf` and their `PlanOf`. One server's journals are listed and rotated into that server's report. |
| P4Maintenance.MaintainAll | yolops/commands/p4_maintenance.py:89-110 | `ReportsOf(ss, …)` maps `ReportOf` over the selected servers. One report per selected server, in order. |
| P4Maintenance.ReportsOfAt | yolops/commands/p4_maintenance.py:89 | The i-th report is the report of the i-th selected server. |
| P4Maintenance.MaintainServers | yolops/commands/p4_maintenance.py:84-110 | Fails with the usage error exactly when the selection does. Otherwise there is one report per selected server, each what the rotation rules give for it. |
| P4Maintenance.Maintain | yolops/commands/p4_maintenance.py:83-110 | An enumeration error comes first. Otherwise the selection error, or one report per selected server in order. |
| Text.JoinSplit | yolops/commands/p4_maintenance.py:13 | `sep.join(s.split(sep)) == s`. |
| Text.SplitJoin | yolops/commands/p4_maintenance.py:13 | Splitting pieces joined with a separator they do not contain gives back the pieces. |
| Text.SplitPieces | yolops/commands/p4_maintenance.py:13 | No piece of a split contains the separator. |
| Text.SplitHasSecond | yolops/commands/p4_maintenance.py:13 | `s.split(sep)` has a second piece exactly when `sep` occurs in `s`. |
| Text.SplitNoSeparator | yolops/commands/p4_maintenance.py:13 | A string without the separator is a single piece. |
| Text.SplitConcat | yolops/commands/p4_maintenance.py:65 | Splitting at one separator occurrence splits each side independently. |
| Text.JoinAppend | yolops/commands/p4_maintenance.py:13 | Joining two piece lists puts one separator between the two joins. |
| Text.TrimStart | yolops/commands/p4_maintenance.py:43 | `lstrip` returns the suffix left after the leading whitespace, which does not itself start with whitespace. |
| Text.TrimEnd | yolops/commands/p4_maintenance.py:43 | `rstrip` returns the prefix left before the trailing whitespace, which does not itself end with whitespace. |
| Text.Strip | yolops/commands/p4_maintenance.py:43 | `strip` neither starts nor ends with whitespace. |
| Text.StripPadded | yolops/commands/p4_maintenance.py:43 | Stripping whitespace padding gives back the padded text. |
| Text.SplitRunsPieces | yolops/commands/p4_maintenance.py:43 | No field of `re.split(' +', s)` contains a space. |
| Text.SplitRunsNonEmpty | yolops/commands/p4_maintenance.py:43 | For text not ending in a space, only the first field can be empty, and exactly when the text is empty or starts with a space. |
| Text.SplitRunsText | yolops/commands/p4_maintenance.py:43 | The fields hold exactly the non-space characters of the text, in order. |
| Text.SplitRunsSpaced | yolops/commands/p4_maintenance.py:43 | Non-empty space-free fields separated by runs of spaces split back into the same fields. |
| Text.ValueDigits | yolops/commands/p4_maintenance.py:65 | `int` of the decimal digits of `n` is `n`. |
| Text.Digits | yolops/commands/p4_maintenance.py:65 | The decimal rendering of a number passes `isnumeric`. It is the inverse partner of `Value` (the `int()` of a component) in ValueDigits; the command itself renders no numbers. |

## Left out

- **File system and processes.**
  - `scantree` (the directory walk) is replaced by its entries as input.
  - `disk_usage` is the `free` parameter.
  - `Popen` of `p4dctl list` and of `p4d -cshow` is replaced by their output lines, exit status and parsed settings.
  - `glob` and `os.path.realpath` are one function parameter.
  - `unlink` and `gzip_file` are modelled as the list of operations a real run performs. Their own failures are not modelled: an `unlink` that raises would abort the Python loop.
- **Other `stat` errors.** The scan catches only FileNotFoundError (`yolops/commands/expire_cache.py:65-71`). Any other error raised by `entry.stat()` or by the directory walk escapes and aborts the command before the drain, so nothing is deleted. Examples are a PermissionError from an unsearchable directory or an OSError for a symlink loop. The model's `Entry` has only "stat succeeded" and "file vanished", so it does not capture such aborted runs.
- **Logging and presentation.** `click.echo`, `info`, `debug`, the verbose listing, `unit()` formatting, `StorageUnit` parsing and the click option plumbing are output formatting only.
- **The `-cshow` regular expression.** The model abstracts it as `show(name, root)`, a list of key/value settings. A server name holding regex metacharacters (or one that makes `re.compile` raise) is not modelled.
- **Modification times.** The source's `st_mtime` is a float. The model uses an integer, since only the order of mtimes matters.
- **Heap tie-breaking.** The heap orders whole `(mtime, size, path)` tuples. The model orders by `mtime` alone, so among records of equal mtime it may pick a different one than the Python heap. Every stated property holds for any choice.
- MinMaxHeaps.MinMaxHeap: the heap is modelled by its observable contract on a backing sequence, not as an array-based min-max heap. `yolops/minmaxheap.py` is not part of this model. PopMin and PopMax return nothing on an empty heap where the Python heap would raise. The command never pops an empty heap: the drain checks `len(heap)` first, and the trimming pops only while more than the positive excess is tracked.
- **Policies.** The `MRU` and `RANDOM` policy values are declared but never used by the eviction code, and only LRU is modelled.
- **Generators and I/O order.** `P4Server.Enumerate` and `Journals` are generators. The command consumes the first with `list(...)`, so the model computes the whole list: the first failing line gives its error, and otherwise a non-zero exit status gives RuntimeError. How journal processing interleaves with I/O is not modelled.
- Text.IsDigits: stands for `str.isnumeric()` on ASCII decimal digits only. Two behaviours of other Unicode characters are not modelled. Numeric characters that are not decimal digits (superscripts, vulgar fractions) pass `isnumeric()` and then make `int()` raise ValueError, aborting the sort. Decimal digits of other scripts (category Nd, such as Arabic-Indic or full-width digits) pass `isnumeric()` and `int()` converts them, so the source keys such a component minus its value, where the model keys it 0.
- Text.Split: its own ensures says only that at least one piece results. What the pieces are is stated by the lemmas beside it (SplitPieces, JoinSplit, SplitJoin, SplitHasSecond).
- Text.SplitRuns: its own ensures says only that at least one field results. What the fields are is stated by the lemmas beside it (SplitRunsPieces, SplitRunsText, SplitRunsSpaced).
- **Argument checking.** The command has a "check argument consistency" TODO and no checks, so none is modelled.
- ExpireCache.UnderDelivery: stated over every summary satisfying `ExpireCache`'s postcondition for the example input, rather than over a call of the method. Every run of the method on that input therefore ends that way.
