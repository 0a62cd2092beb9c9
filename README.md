# decrypt_gpg, modelled in Dafny

This project models the three programs of the decrypt_gpg repository:

- **the sync engine** (`src/decrypt_gpg/sync.py`). It mirrors a start tree under `target/<start name>`:
  - a copy direction copies every file whose size or hash differs;
  - a delete direction removes destination files that have no source;
  - both run as batched work items.
- **the older copy-usb script** (`copy-usb.py`). It is the same copy/delete pair, with the delete direction given by swapping the roots.
- **the decryptor** (`src/decrypt_gpg/decrypt.py`). It walks a directory tree and mirrors it under an output root:
  - `.gpg` files are decrypted;
  - other files are copied;
  - `.tgz`/`.tar.gz`/`.tar`/`.gz` results are unpacked.

All three work on one abstract file system, `FileSystem.State`, with three fields:

- `files`: a map from paths to byte strings;
- `dirs`: a set of directory paths;
- `out`: the lines printed so far.

A `FileSystem.Disk` object holds the same three fields and changes them in place. Each primitive operation (`makedirs`, `open(..., "wb")`, `shutil.copy`, `unlink`, `mkdir`, `print`) is a method on it. Each method is specified by a pure function of the old snapshot, which returns the new snapshot and an `Outcome`: either `Ok` or an exception raised.

The programs' procedures are methods that run over a `Disk`. Each is proved equal to a plan function of the initial snapshot. The plan functions' properties are then proved as lemmas:

- convergence of a copy;
- deletion of orphans only;
- dry runs leaving the tree untouched;
- which exceptions can escape.

### Modules

| module | contents |
|---|---|
| `Paths` | Paths as sequences of names, `PurePath.parent`, `relative_to`, `suffix`, `stem`. |
| `FileSystem` | The state, the primitive operations and `Disk`. |
| `Sync` | `sync.py`: the hash, the copy and delete decisions, the path mappings, the batched traversals, argument handling and `run`. |
| `SyncProperties` | Properties of one copy or delete step, the copy/delete path mappings as inverses, and the finding below. |
| `TraversalProperties` | Properties of whole traversals: batching, convergence, deletion frames. |
| `CopyUsb` | `copy-usb.py`: the future dictionary that drains as futures complete, `traverse` and the main block. |
| `Decrypt` | `decrypt.py`: archive handling, the `Decryptor` class, `recurse` as a walk over a directory listing, and `main`. |
| `DecryptProperties` | Archive naming, decryption outcomes, the shape of a walk and `main`'s early exits. |

### Design notes

- **The thread pool runs items one at a time, in submission order.** An item's exception reaches the caller when its batch is awaited. A batch always finishes running, because leaving the executor waits for it. The first failure in submission order is the one reported.
- **The backlog bound follows the code.** Both traversals submit an item and only then compare the backlog with `3 * cpus`. So up to `3 * cpus + 1` items are outstanding, not `3 * cpus`. Each submission starts from a backlog of at most `3 * cpus` items (`Sync.Submit`, `CopyUsb.SubmitUsb`), and the batches awaited have `3 * cpus + 1` items each but the last (`TraversalProperties.BatchesPartition`).
- **The delete direction of the sync engine is modelled as written.** It maps a destination directory back through `dest/<stem of the start name>` (`Sync.StemRoot`), while the copy direction writes under `dest/<start name>` (`Sync.ManagedRoot`); see the finding below. The delete lemmas are stated for any such root, and `SyncProperties.StemMappingAgrees` shows the two roots coincide when the start name has no suffix.
- **A directory listing is a snapshot.** `recurse` works on a `Node` tree taken when the walk starts. The sync traversals take a `WalkEntry` sequence that `Walk` proves to list every file below the root exactly once.
- **Absolute `base_dir` makes `decrypt` work in place.** `dec_root / src_dir` is `src_dir` when `src_dir` is absolute (`Decrypt.PJoin`), so every target is the source's own directory (`DecryptProperties.WalkTargets`). A plain file then makes `shutil.copy2` raise `SameFileError` (`DecryptProperties.InPlaceCopyIsSameFile`).

## Model

| member | source | states |
|---|---|---|
| Paths.Parent | src/decrypt_gpg/sync.py:43 | The parent is a prefix of the path, one segment shorter unless the path is the root. |
| Paths.Join | src/decrypt_gpg/sync.py:66 | Joining a non-empty name appends it, and it is then the last name with the old path as parent; joining "" changes nothing. |
| Paths.RelativeTo | src/decrypt_gpg/sync.py:85 | `relative_to` succeeds exactly when the base is a prefix of the path, and base + result is the path. |
| Paths.RFind | src/decrypt_gpg/decrypt.py:31 | The index found holds the character and no later index does; -1 means there is none. |
| Paths.StemSuffix | src/decrypt_gpg/decrypt.py:31 | Stem plus suffix is the name. A suffix is "" or a dot followed by at least one non-dot character, and a name with a suffix has a non-empty stem. |
| FileSystem.Prefixes | src/decrypt_gpg/sync.py:43 | The set `makedirs` creates is exactly the path and all its ancestors. |
| FileSystem.WriteFrame | src/decrypt_gpg/decrypt.py:59 | Opening a file for writing succeeds exactly when the path is no directory and its parent is one. Only then does it change the files, and only at that path. |
| FileSystem.Disk.MakeDirs | src/decrypt_gpg/sync.py:43 | `makedirs(exist_ok=True)` fails on a file at the path or above it, and otherwise adds all ancestors. |
| FileSystem.Disk.Copy | src/decrypt_gpg/sync.py:44 | `shutil.copy` writes into a destination directory under the source's name. It raises on a missing source, a directory source or the same file. |
| FileSystem.Disk.Unlink | src/decrypt_gpg/sync.py:57 | `unlink` removes a regular file and raises on a directory or a missing path; a missing path below a regular file is NotADirectory, any other FileNotFound. |
| FileSystem.Disk.Mkdir | src/decrypt_gpg/decrypt.py:132 | `mkdir(exist_ok=True)` accepts an existing directory, raises on a file or a missing parent (NotADirectory when an ancestor is a regular file), and otherwise adds exactly that directory. |
| Sync.GetCpuCount | src/decrypt_gpg/sync.py:12-17 | The count is positive: it is the OS count when that is known and non-zero, and 2 otherwise. |
| Sync.ReadChunk | src/decrypt_gpg/sync.py:24 | A read returns the next at most 65536 bytes of the content. It is empty exactly at the end, and it is short only at the end. |
| Sync.FileHash | src/decrypt_gpg/sync.py:20-28 | The chunked hash equals the hash of the whole content: the chunks concatenate to the content, each is non-empty and at most 65536 bytes, and all but the last are full. |
| Sync.CopyIfNeeded | src/decrypt_gpg/sync.py:31-44 | The disk ends where the copy decision `CopyStep` says; its properties are the SyncProperties lemmas below. |
| Sync.DeleteIfNotExists | src/decrypt_gpg/sync.py:47-57 | The disk ends where the delete decision `DeleteStep` says (see `SyncProperties.DeleteDecision`). |
| Sync.CopyTarget | src/decrypt_gpg/sync.py:67 | `tgt / s.relative_to(src.parent)` nests every file under `tgt/<src name>`, keeping its path below `src`. |
| Sync.Submit | src/decrypt_gpg/sync.py:69-73 | One submission, made from a backlog of at most 3*cpus items, either raises the traversal's result or leaves the traversal on track with a backlog of at most 3*cpus again. |
| Sync.TraverseForCopy | src/decrypt_gpg/sync.py:60-74 | The disk and outcome are those of running the walk's copy items, in order, in the batches `TraversalProperties.BatchesPartition` describes. |
| Sync.TraverseForDelete | src/decrypt_gpg/sync.py:89-106 | Likewise for the delete items of the code as written: each walked file under `dest/<stem>` paired with its counterpart under the start, every other file skipped. |
| Sync.DryRunKeepsTree | src/decrypt_gpg/sync.py:42 | In a dry run no batch sequence changes files or directories. |
| Sync.TraversalRaisesOsErrors | src/decrypt_gpg/sync.py:70-74 | A traversal can only raise an OS error (no SystemExit, no decode error). |
| Sync.Walk | src/decrypt_gpg/sync.py:64 | The walk lists exactly the files strictly below the root, each once. |
| Sync.GetArgs | src/decrypt_gpg/sync.py:126-139 | Dry-run holds exactly when `--force` is absent; the other flags pass through. |
| Sync.RunPlanDryRunKeepsTree | src/decrypt_gpg/sync.py:152-158 | Without `--force`, `run` changes no file or directory. |
| Sync.RunPlanNoOp | src/decrypt_gpg/sync.py:152-158 | With neither `--copy` nor `--delete`, `run` only logs the two roots. |
| Sync.RunPlanRaisesOsErrors | src/decrypt_gpg/sync.py:153-158 | Once the roots are accepted, the only exceptions `run` can raise are OS errors. |
| Sync.CopyDirection | src/decrypt_gpg/sync.py:153-155 | With `--copy`, the walk taken is the start tree's walk, and the disk ends as the logged copy traversal says. |
| Sync.DeleteDirection | src/decrypt_gpg/sync.py:156-158 | With `--delete`, the walk taken is the target tree's walk, and the disk ends as the logged delete traversal, mapping through `dest/<stem>` as written, says. |
| Sync.Run | src/decrypt_gpg/sync.py:142-158 | `run` exits with status 1 exactly when the roots are rejected, and then prints "Needs start and target locations" when an argument is empty, otherwise "start and target need to be directories", and touches nothing. Otherwise it copies first and deletes only if the copy succeeded, each direction walking the tree as it is at that moment. |
| SyncProperties.LogPrefix | src/decrypt_gpg/sync.py:109-112 | A log line starts with "(dryrun) " exactly in a dry run, and the message follows it. |
| SyncProperties.CopySkipsExactlyWhenSame | src/decrypt_gpg/sync.py:39-41 | A copy item does nothing exactly when the destination is a file of the same size and hash. Otherwise it appends exactly one log line. |
| SyncProperties.CopyDryRunMirrorsRealRun | src/decrypt_gpg/sync.py:41-44 | A dry run leaves the tree as it is and logs, with the prefix, the line the real run logs. |
| SyncProperties.CopyWritesDest | src/decrypt_gpg/sync.py:42-44 | A real copy into a free destination succeeds. It writes the source bytes there and creates the missing parents. |
| SyncProperties.CopyIsIdempotent | src/decrypt_gpg/sync.py:39-40 | Repeating a successful copy does nothing. |
| SyncProperties.CopyOutcome | src/decrypt_gpg/sync.py:39-44 | After a successful copy, size and hash match. No file other than the destination is touched, and only the destination's ancestors are added as directories. |
| SyncProperties.DeleteDecision | src/decrypt_gpg/sync.py:54-57 | The destination disappears exactly when the source does not exist and it is not a dry run. Nothing else changes, and the step raises exactly when it tries to unlink a missing file. |
| SyncProperties.DeleteInvertsCopy | src/decrypt_gpg/sync.py:67-86 | Mapping a source file to its copy and back through the corrected mapping (`dest/<name>`) gives its directory back. |
| SyncProperties.CopyInvertsDelete | src/decrypt_gpg/sync.py:67-86 | Under the corrected mapping, every file strictly under the managed subtree maps to a source file whose copy target is that file. |
| SyncProperties.SkipsOutsideManagedSubtree | src/decrypt_gpg/sync.py:85-99 | As written, a delete item is skipped exactly when its directory lies outside `dest/<src stem>`; under the corrected mapping, exactly when it lies outside `dest/<src name>`. |
| SyncProperties.DotlessMapping | src/decrypt_gpg/sync.py:85-86 | For a start name without a dot, both mappings take the directory `dest/<name>/<rest>` to `src/<rest>`. |
| SyncProperties.SourceForExamples | tests/test_sync.py:106-120 | The test's three cases hold for the mapping as written, which the test calls, and for the corrected mapping, which agrees with it on these suffix-free start names. |
| SyncProperties.StemMappingMisroutes | src/decrypt_gpg/sync.py:85 | For a start directory "foo.d", the mapping as written misses the copy under "bar/foo.d" and maps the unrelated "bar/foo" instead; the corrected mapping does the opposite. |
| SyncProperties.StemMappingDeletesUnrelated | src/decrypt_gpg/sync.py:85-86 | The misrouted mapping deletes a file under "bar/foo" that no copy produced. |
| SyncProperties.StemMappingAgrees | src/decrypt_gpg/sync.py:85 | When the start name has no suffix, `dest/<stem>` is `dest/<name>` and the mapping as written is the corrected one. |
| SyncProperties.DeleteJobsStayManaged | src/decrypt_gpg/sync.py:85-100 | Every delete item of the code as written targets a file strictly under `dest/<stem>`, and it lies in the managed subtree `dest/<name>` exactly when the start name has no suffix. |
| TraversalProperties.BatchesPartition | src/decrypt_gpg/sync.py:68-74 | The batches hold the items in submission order. Every batch but the last has 3*cpus+1 items, and the last has at most 3*cpus. |
| TraversalProperties.FirstErrorSticks | src/decrypt_gpg/sync.py:70-71 | Once a batch has an exception, that exception is the one awaited. |
| TraversalProperties.RunFromAppend | src/decrypt_gpg/sync.py:68-74 | Running a batch in two parts equals running it whole. |
| TraversalProperties.BatchingInvisibleWithoutErrors | src/decrypt_gpg/sync.py:69-74 | The batches succeed exactly when the items run as one sequence succeed, and then they end in the same state. |
| TraversalProperties.TraversalIsSequentialWhenOk | src/decrypt_gpg/sync.py:60-74 | A traversal succeeds exactly when its items run in sequence succeed, and then it ends in the same state. |
| TraversalProperties.CopiesConverge | src/decrypt_gpg/sync.py:39-44 | When disjoint copy items all succeed, each destination ends with the size and hash of its source, and no path outside the destinations changes. |
| TraversalProperties.CopyJobsShape | src/decrypt_gpg/sync.py:64-68 | The copy items' sources are exactly the walk's files, each mapped to `tgt/<src name>/<relative path>`. |
| TraversalProperties.PairsDisjoint | src/decrypt_gpg/sync.py:67 | With disjoint roots, no copy destination is at or above another destination or any source. |
| TraversalProperties.CopyTraversalConverges | src/decrypt_gpg/sync.py:60-74 | A successful real copy traversal leaves every file below the start mirrored by size and hash under the managed subtree, with the start tree itself unchanged. |
| TraversalProperties.CopyDestsOutsideSource | src/decrypt_gpg/sync.py:67 | With disjoint roots, no copy destination lies in the start tree. |
| TraversalProperties.ConvergedBatchIsNoOp | src/decrypt_gpg/sync.py:39-40 | Copy items whose destinations already match change nothing. |
| TraversalProperties.CopyTwiceIsCopyOnce | src/decrypt_gpg/sync.py:60-74 | After a successful copy traversal, running it again (dry or not) changes nothing and prints nothing. |
| TraversalProperties.DeleteJobsShape | src/decrypt_gpg/sync.py:93-100 | For the root the mapping strips (as written `dest/<stem>`), the delete items are exactly the walked files strictly under it, each paired with its counterpart under the start. |
| TraversalProperties.DeleteBatchOnlyRemoves | src/decrypt_gpg/sync.py:54-57 | Delete items only remove their own targets and change no byte or directory. |
| TraversalProperties.DeleteTraversalFrame | src/decrypt_gpg/sync.py:89-106 | The delete traversal removes files only, and only strictly under the root its mapping strips. |
| TraversalProperties.DeletesDecideBySource | src/decrypt_gpg/sync.py:54 | In a successful real delete run, each target disappears exactly when its source was missing at the start. |
| TraversalProperties.DeleteTraversalRemovesOrphans | src/decrypt_gpg/sync.py:89-106 | For a root at or below the target and apart from the start, a successful real delete traversal keeps a file under that root exactly when its counterpart exists in the start tree. |
| TraversalProperties.DeleteTraversalAsWrittenRemovesOrphans | src/decrypt_gpg/sync.py:85-106 | For a start name without a suffix, the delete traversal as written keeps a file of the managed subtree exactly when its counterpart exists in the start tree. |
| CopyUsb.UsbTarget | copy-usb.py:67-69 | `abspath(join(tgt, relpath(s, src)))` lies under the target, as deep below it as `s` is below the source. |
| CopyUsb.UsbRoundTrip | copy-usb.py:67-69 | Mapping start to target and back (what the swapped delete call does) gives the original path; lying below a root is preserved. |
| CopyUsb.BacklogEntries | copy-usb.py:62-69 | The futures dictionary holds exactly the outstanding items, keyed in submission order. |
| CopyUsb.BacklogSize | copy-usb.py:70 | The dictionary's size is the number of outstanding items. |
| CopyUsb.Await | copy-usb.py:71-75 | Awaiting runs the outstanding items in order. With `del execs[e]`, the dictionary is empty afterwards. |
| CopyUsb.SubmitUsb | copy-usb.py:69-73 | One submission, from a backlog of at most 3*cpus items, keeps the dictionary in step with the backlog and either fails with the traversal's result or stays on track. |
| CopyUsb.Traverse | copy-usb.py:61-75 | The disk and outcome are those of the walk's items, in order, in the batches `TraversalProperties.BatchesPartition` describes. |
| CopyUsb.UsbMain | copy-usb.py:83-98 | The script logs the roots, copies when asked, and deletes only after a successful copy, each direction walking the tree as it is at that moment. |
| CopyUsb.UsbPlanRaisesOsErrors | copy-usb.py:94-98 | The only exceptions the script raises are OS errors, and only when copying or deleting. |
| CopyUsb.UsbPlanKeepsTree | copy-usb.py:94-98 | With `--dryrun`, or with neither direction, the script changes no file or directory. |
| CopyUsb.UsbPlanLogsRootsFirst | copy-usb.py:94 | The first line the script prints is the roots line, with the dry-run prefix when dry. |
| CopyUsb.UsbDeleteRemovesEveryOrphan | copy-usb.py:43-58 | A successful real delete run keeps a target file exactly when its counterpart exists under the start. |
| CopyUsb.UsbCopyConverges | copy-usb.py:25-40 | A successful real copy run leaves every start file mirrored by size and hash at its place under the target. |
| CopyUsb.TraversalKeepsOutput | copy-usb.py:78-80 | A traversal only appends to what was printed. |
| Decrypt.PJoin | src/decrypt_gpg/decrypt.py:97 | `a / b` is `b` when `b` is absolute, and otherwise the concatenation. |
| Decrypt.DecryptedName | src/decrypt_gpg/decrypt.py:73-74 | Dropping ".gpg" gives the name that ".gpg" was appended to; other names stay as they are. |
| Decrypt.WithoutSuffix | src/decrypt_gpg/decrypt.py:17 | `with_suffix("")` keeps the parent and replaces the last name by its stem. |
| Decrypt.Visible | src/decrypt_gpg/decrypt.py:100 | The entries kept are exactly those whose name does not start with ".". |
| Decrypt.SortByName | src/decrypt_gpg/decrypt.py:100 | `sorted` gives a permutation of the entries, ordered by name. |
| Decrypt.Entries | src/decrypt_gpg/decrypt.py:100 | The listing is sorted by name and holds exactly the visible children. |
| Decrypt.SubdirsOf | src/decrypt_gpg/decrypt.py:104-108 | The subdirectories are exactly the directory entries. |
| Decrypt.ExtractGz | src/decrypt_gpg/decrypt.py:15-25 | The disk ends where `ExtractGzSpec` says (see `DecryptProperties.ExtractGzOutcome`). |
| Decrypt.HandleArchive | src/decrypt_gpg/decrypt.py:28-39 | Each archive kind is handled by tar or gzip and then unlinked; plain files are left alone. |
| Decrypt.Decryptor.constructor | src/decrypt_gpg/decrypt.py:42-44 | The decryptor keeps the given password. |
| Decrypt.Decryptor.PromptForPassword | src/decrypt_gpg/decrypt.py:48-54 | A typed password is stored. An interrupt prints a blank line and exits with status 1, leaving files and directories unchanged. |
| Decrypt.Decryptor.DecryptGpgFile | src/decrypt_gpg/decrypt.py:56-68 | The disk ends where `DecryptGpgFileSpec` says: the output is opened first and receives whatever gpg writes, and a failed gpg run prints the error and exits with status 1 (see `DecryptProperties.DecryptOpensOutputFirst`). |
| Decrypt.Decryptor.ProcessFile | src/decrypt_gpg/decrypt.py:70-82 | The disk ends as decrypting or copying the file, then unpacking it and printing ".", says. |
| Decrypt.Decryptor.ProcessFiles | src/decrypt_gpg/decrypt.py:84-88 | All files are processed in order, and the first failure is raised (see `DecryptProperties.ProcessFilesOkIffAllSucceed`). |
| Decrypt.Decryptor.Recurse | src/decrypt_gpg/decrypt.py:90-114 | `recurse` does exactly the visits of the walk over the listing, in order, and stops at the first exception. |
| Decrypt.Split | src/decrypt_gpg/decrypt.py:101-108 | The loop splits the entries into exactly the subdirectories and the files, in order. |
| Decrypt.Run | src/decrypt_gpg/decrypt.py:117-137 | Given the listing of the base directory as it is at the start, `main` does what `RunSpec` says. It walks only when the base directory exists and a password was typed. |
| DecryptProperties.TarGzNameHasGzSuffix | src/decrypt_gpg/decrypt.py:32 | A ".tar.gz" name has the suffix ".gz". |
| DecryptProperties.KindBySuffix | src/decrypt_gpg/decrypt.py:30-39 | Each archive kind is chosen exactly by its suffix condition, with ".tar.gz" before ".gz". |
| DecryptProperties.TarArchiveNames | tests/test_decrypt.py:102-117 | The test's archive names are recognised as tar archives. |
| DecryptProperties.GzNames | tests/test_decrypt.py:94-99 | ".gz" files extract next to themselves without the suffix. |
| DecryptProperties.GpgNameRoundTrip | src/decrypt_gpg/decrypt.py:73-74 | Decrypting "n.gpg" gives "n", and the result is handled as `n` would be. |
| DecryptProperties.ExtractGzOutcome | src/decrypt_gpg/decrypt.py:15-25 | A complete stream replaces the file by its contents without the suffix. A bad stream leaves the partial output, prints the message and exits with status 1. An undecodable one raises. |
| DecryptProperties.DecryptOpensOutputFirst | src/decrypt_gpg/decrypt.py:56-68 | The output file always exists afterwards and holds exactly what gpg wrote to it, partial output of a failed run included. Success holds exactly when gpg exits with status 0; a failure prints the error and exits with status 1. |
| DecryptProperties.DecryptIntoDirectoryRaises | src/decrypt_gpg/decrypt.py:59 | Decrypting onto a directory raises IsADirectoryError and changes nothing. |
| DecryptProperties.PlainFileIsCopied | src/decrypt_gpg/decrypt.py:78-82 | A plain file is copied byte for byte into the target directory and a "." is printed. |
| DecryptProperties.BareGpgNameTargetsDirectory | src/decrypt_gpg/decrypt.py:73-76 | A file named just ".gpg" decrypts onto the target directory itself and raises. |
| DecryptProperties.InPlaceCopyIsSameFile | src/decrypt_gpg/decrypt.py:79 | Copying a plain file into its own directory raises SameFileError. |
| DecryptProperties.FirstFileErrorSticks | src/decrypt_gpg/decrypt.py:87-88 | Once a file fails, that exception is the one raised. |
| DecryptProperties.ProcessFilesOkIffAllSucceed | src/decrypt_gpg/decrypt.py:84-88 | `process_files` succeeds exactly when every file, processed in turn, succeeds. |
| DecryptProperties.VisitsStayBelow | src/decrypt_gpg/decrypt.py:112-114 | Every directory visited lies at or below the starting directory. |
| DecryptProperties.WalkTargets | src/decrypt_gpg/decrypt.py:97 | For an absolute base every target is the source directory itself; for a relative one it is the source nested under the output root. |
| DecryptProperties.FilesOfMembers | src/decrypt_gpg/decrypt.py:104-108 | The files handed on are exactly the children of the directory that are not directories. |
| DecryptProperties.ListingFirstVisit | src/decrypt_gpg/decrypt.py:93-95 | With a listing that agrees with the filesystem, the first call treats its path as a directory exactly when the filesystem has one there. |
| DecryptProperties.ListingHandsOverFiles | src/decrypt_gpg/decrypt.py:100-110 | With such a listing, a directory's first call hands `process_files` exactly the regular files directly in it whose names do not start with ".". |
| DecryptProperties.VisitHandsOverVisibleFiles | src/decrypt_gpg/decrypt.py:100-110 | The first visit is to a directory and hands `process_files` exactly its visible non-directory children. |
| DecryptProperties.VisitCount | src/decrypt_gpg/decrypt.py:112-114 | The walk visits once for each visible directory of the tree. |
| DecryptProperties.VisitsAreDirs | src/decrypt_gpg/decrypt.py:93-95 | Walking from a directory never reaches the non-directory branch. |
| DecryptProperties.RecurseTestTree | tests/test_decrypt.py:20-43 | The test tree gives two directory visits, each in place for an absolute base. |
| DecryptProperties.RunEarlyExits | src/decrypt_gpg/decrypt.py:126-130 | A missing base directory or an interrupted prompt exits with status 1 after one line, touching no file or directory. |
| DecryptProperties.RunMakesOutputFirst | src/decrypt_gpg/decrypt.py:132-137 | `main` creates the output directory before walking, and raises FileExistsError when a file is in its place. On success it ends with the "took" line. |

## Left out

- SHA-256 itself: the hash is the parameter `H`, an arbitrary function of the bytes. The model only relies on it being a function.
- gpg, tar and gzip: they are the `Tools` parameter.
  - gpg maps a password and ciphertext to the bytes it writes to standard output and whether it exits with status 0.
  - tar maps the tree, the working directory and the archive name to the tree it leaves, or to a failure.
  - gzip's decoder maps bytes to the decoded bytes and a status.
  - Their internals and stderr text are not modelled.
- Entries that `tar x` creates are in the resulting tree, but the walk does not see them: `recurse` walks a listing taken before it starts. `Decrypt.Run` requires that listing to agree with the filesystem at the start (`Decrypt.ListingOf`); later changes to the tree, such as an output directory inside the base directory, are not reflected in it.
- tar's standard output: the model keeps the printed lines as they were before tar ran.
- The password prompt: `getpass` becomes the `typed` parameter, and `None` is the keyboard interrupt.
- Threads: every pool runs its items one after another in submission order, and reports the first exception in that order. `as_completed` order, interleaving and the pool's worker count are not modelled.
- `os.walk` and `iterdir` order: the walk is any listing of every file once, and a directory listing is a snapshot.
- `resolve()`, `abspath`, symbolic links, "." and "..": paths are given already resolved, as segment sequences.
- argparse: the flags are parameters, and `Sync.GetArgs` keeps only the dry-run rule.
- The clock: the "took" line carries no number.
- Output detail: file metadata copied by `copy2`, the text of gpg's stderr and of caught exceptions, and `print(end="")`/`flush`. Each print is one output entry.
- A missing gpg or tar binary: the FileNotFoundError `subprocess.run` would raise is not modelled.
- `CopyUsb.Traverse` requires `cpus > 0`: it does not model `cpu_count()` returning None, which in the script makes `cpus * 3` raise TypeError.
- `Sync.FileHash` hashes a byte string given as a parameter: it does not model opening the file, and `CopyStep` applies `H` to the snapshot's contents directly.
- Decrypt.Decryptor.constructor: does not prompt. `Decryptor()` with an empty password prompts in `__init__`; `main` always constructs it that way, so `Decrypt.Run` calls `PromptForPassword` right after the constructor, which has the same effect.
- Sync.CopyStep: a copy source that is a directory is reported as a missing file. Python would stat it and compare its directory size; walked copy items always name regular files.
- Sync.Run: receives the resolved roots next to the raw argument strings. It checks the strings for emptiness and the resolved paths for directories, but does not model the resolution itself.

## Findings

| source | as written | input that shows it | evidently intended | confidence | as-written member | corrected member |
|---|---|---|---|---|---|---|
| src/decrypt_gpg/sync.py:85 | `subdir.relative_to(dest / src.stem)`, while the copy at line 67 nests files under `dest / src.name`; modelled by `Sync.SourceForAsWritten`, which `Sync.TraverseForDelete` and `Sync.Run` use | start "foo.d", target "bar": the copy writes "bar/foo.d/x", which maps to nothing, while an unrelated "bar/foo/y" maps to "foo.d/y" and is deleted when that source is missing | `relative_to(dest / src.name)`, the inverse of the copy mapping | not executed | SyncProperties.StemMappingMisroutes | Sync.SourceFor |
