# s3put upload planner, modelled in Dafny

`s3put` copies a file, or a whole directory tree, into an Amazon S3 bucket. This
project models the parts of `s3put.py` that decide what gets uploaded and how:

- **Object keys.** `get_key_name` maps a file's full path to its S3 key. It drops the
  first `len(prefix)` characters and turns every `os.sep` into `/`. The `-p` option
  normalises the prefix so that it ends in `os.sep`.
- **Per-file classification.** `is_gzip` and `GZIP_EXTENSIONS` choose the files to
  compress. `get_headers` picks the cache policy from the `/assets/` substring.
  `guess_mime_type` special-cases `.appcache`. The gzip branch adds `Content-Type` and
  `Content-Encoding` to the headers.
- **The upload planner.** Directory mode walks the tree top-down, prunes the
  `ignore_dirs` subdirectories, and for each file either skips it (with `no_overwrite`,
  when the key already exists) or reports it and uploads it (unless `no_op` is set).
  Single-file mode keys the file by its base name. `main` dispatches between the two.

Each S3 call is recorded as an `Action` (`Planner.Action`), in the order the program
would make it, next to the lines it prints. A run is therefore a sequence of actions.
The lines printed per file are the decision line (`Skipping` or `Copying`) and, for a
compressed upload, the `gzipped` line; the latter is printed even under `-q` and only
when an upload really happens.
The platform separator `os.sep` is the parameter `sep`. The directory tree is the
datatype `Tree.Dir`, and the walk is a work-list loop in `os.walk`'s top-down order.

Modules:

- `Wrappers`: `Option` and `Result`.
- `Text`: the Python string operations used: `startswith`, `endswith`, `in`, `split`,
  `join` and `'%d'`.
- `Paths`: key names, the prefix option, `os.path.join` and `os.path.split`.
- `Headers`: gzip selection, cache headers and MIME types.
- `Tree`: the directory tree, pruning and the walk.
- `Planner`: the per-file decision, both modes and the dispatch.

Where the usage text and the code disagree, the model follows the code:

- For `/home/foo/bar/fie.baz` with `-p /home/foo/`, the usage text (s3put.py:99-107)
  announces the key `/bar/fie.baz`. The code produces `bar/fie.baz`
  (`Paths.UsageExampleKey`).
- The long-lived `Cache-Control` value is the literal the code builds,
  `max-age 63072000`. It lacks the `=` that the max-age directive of section 5.2.2.8
  of RFC 7234 uses. The model keeps the literal and proves that it has no `=`.
- With a bucket name but a path that is neither a directory nor a regular file, the
  code does nothing. It prints no usage text, since the `else` at s3put.py:272 belongs
  to `if bucket_name`.

## Model

| member | source | states |
|---|---|---|
| Text.ContainsIffOccurs | s3put.py:38 | the left-to-right substring scan used for `'/assets/' in fullpath` holds exactly when some window of the path equals the substring |
| Text.Contains | s3put.py:38 | `t in s` as a scan from the left; its meaning is fixed by `Text.ContainsIffOccurs` and `Text.ContainsInMiddle` |
| Text.ContainsInMiddle | s3put.py:38 | a string built around the substring contains it |
| Text.JoinSplit | s3put.py:135-136 | splitting on `os.sep` and joining with `/` replaces every separator by `/`, one for one, and keeps every other character |
| Text.Split | s3put.py:135 | `str.split` on one character gives at least one part and no part holds the separator |
| Text.Join | s3put.py:136 | `'/'.join(parts)`; together with `Text.Split` it is characterised by `Text.JoinSplit` |
| Text.EndsWith | s3put.py:64 | `str.endswith`; used by `is_gzip` and `guess_mime_type`, characterised through `Headers.GzipExtensionsListed` and `Headers.TailDiffers` |
| Headers.TailDiffers | s3put.py:64 | a name whose tail differs from a suffix in one character does not end with it |
| Text.Decimal | s3put.py:44 | `'%d'` of a natural number is a non-empty string of decimal digits |
| Text.DecimalRoundTrip | s3put.py:44 | reading back the digits `'%d'` prints gives the original number |
| Paths.Drop | s3put.py:134 | `s[n:]` has `len(s) - n` characters, none when `n` is past the end, and is the suffix from `n` otherwise |
| Paths.GetKeyName | s3put.py:133-136 | the key has length `max(0, len(fullpath) - len(prefix))`; character `i` of the key is `/` where path character `len(prefix)+i` is `os.sep`, and that path character otherwise |
| Paths.KeyNameAfterPrefix | s3put.py:133-136 | when the path starts with the prefix, the key is the remainder after it with separators rewritten; with `/` as separator, prefix plus key gives the path back |
| Paths.KeyNameHasNoSeparator | s3put.py:135-136 | when `os.sep` is not `/`, no key contains `os.sep` |
| Paths.UsageExampleKey | s3put.py:99-107 | `/home/foo/bar/fie.baz` under `/home/foo/` gets key `bar/fie.baz`, not the `/bar/fie.baz` of the usage text |
| Paths.NormalizePrefix | s3put.py:186-189 | an empty `-p` argument raises IndexError, and only it does; otherwise the prefix ends with `os.sep` and is the argument itself or the argument plus one `os.sep` |
| Paths.NormalizePrefixIdempotent | s3put.py:186-189 | normalising twice is normalising once, and an argument already ending in `os.sep` is kept unchanged |
| Paths.ResolvePrefix | s3put.py:162-189 | with no `-p` the prefix is `/`; an empty argument anywhere raises; otherwise the last argument, normalised, wins and ends in `os.sep` |
| Paths.PathJoin | s3put.py:216 | an absolute name replaces the directory; otherwise the result is the directory, then one separator unless the directory is empty or already ends in one, then the name |
| Paths.Basename | s3put.py:247 | the base name has no separator, is a suffix of the path, and is preceded by a separator whenever it is not the whole path |
| Paths.BasenameAfterSeparator | s3put.py:247 | a separator-free name after an empty head or a head ending in `os.sep` is exactly the base name |
| Paths.BasenameOfJoin | s3put.py:247 | the base name of a directory joined with a separator-free name is that name |
| Headers.IsGzip | s3put.py:61-66 | the early-return loop over the extensions answers true exactly when the name ends with a listed extension |
| Headers.GzipExtensionsListed | s3put.py:33 | a name is gzip-eligible exactly when it ends with `.css`, `.js`, `.ttf`, `.appcache` or `.ico` |
| Headers.GzipMatchesListed | s3put.py:61-66 | `app.js` and `site.appcache` are gzipped |
| Headers.GzipMatchIsExact | s3put.py:61-66 | the match is exact and case-sensitive: `x.json` and `X.JS` are not gzipped |
| Headers.TwoYearsDecimal | s3put.py:44 | `'%d' % (3600 * 24 * 365 * 2)` prints `63072000` |
| Headers.GetHeaders | s3put.py:36-48 | with `/assets/` in the path the headers are exactly `Expires` (the date plus ` GMT`) and `Cache-Control: max-age 63072000`; otherwise exactly `Cache-Control: must-revalidate` |
| Headers.GetHeadersDependsOnlyOnAssets | s3put.py:38 | two paths that agree on containing `/assets/` get the same headers |
| Headers.AssetsCacheControlValue | s3put.py:44 | the long-lived value is `max-age `, then digits denoting two years in seconds, and contains no `=` |
| Headers.GuessMimeType | s3put.py:139-142 | `guess_mime_type`; characterised by `Headers.AppCacheIgnoresTable` and `Headers.MimeTypeReadsTableAtPathOnly` |
| Headers.AppCacheIgnoresTable | s3put.py:139-142 | a path ending in `.appcache` gets `text/cache-manifest`, whatever the system table holds |
| Headers.MimeTypeReadsTableAtPathOnly | s3put.py:139-142 | the type depends on the system table only through its entry for this path, and not at all for a cache manifest; any other path gets exactly that entry |
| Headers.GzipHeaders | s3put.py:231-238 | the gzip branch adds `Content-Encoding: gzip` and, only when a non-empty type was found, `Content-Type`, and keeps every other entry |
| Headers.GzipHeadersKeepCachePolicy | s3put.py:229-238 | every `get_headers` entry survives unchanged; the only new keys are the two content headers |
| Tree.RemoveFirst | s3put.py:213-214 | `dirs.remove(name)` under `if name in dirs` removes the first directory of that name and keeps the others in order; with no such directory nothing changes |
| Tree.RemoveFirstKeeps | s3put.py:213-214 | when the name occurs, removal shortens the subdirectory list by exactly one, and every remaining directory was in the list before |
| Tree.Pruned | s3put.py:212-214 | the subdirectories left after each ignored name in turn has removed its first occurrence; only directories of the listing remain, and `Tree.PrunedIsFilter` characterises the result |
| Tree.PruneDirs | s3put.py:212-214 | the in-place pruning loop leaves exactly the pruned subdirectory list |
| Tree.FilesIn | s3put.py:215-216 | each file of a directory becomes one candidate, in listing order, with its joined full path |
| Tree.Considered | s3put.py:211-216 | the files the walk handles below a directory, in `os.walk` top-down order; characterised by `Tree.WalkSkipsExactlyIgnored` |
| Tree.ForestConsidered | s3put.py:211-216 | the same for a list of sibling subdirectories; characterised by `Tree.ForestWalkSkipsExactlyIgnored` |
| Tree.PrunedIsFilter | s3put.py:212-214 | with unique sibling names, pruning removes exactly the subdirectories whose name is ignored |
| Tree.WalkSkipsExactlyIgnored | s3put.py:211-216 | the walk considers exactly the files of the tree that no ignored directory below the root hides, each once, in walk order |
| Tree.ForestWalkSkipsExactlyIgnored | s3put.py:211-216 | the same for a list of sibling subdirectories |
| Tree.VisibleMembers | s3put.py:211-216 | a file is considered if and only if it is in the tree and none of the directories above it, below the root, has an ignored name |
| Tree.WalkStep | s3put.py:211-216 | one walk step handles the first directory's files, then its pruned children ahead of the rest, and the remaining work shrinks |
| Planner.Upload | s3put.py:228-244 | one object write; characterised by `Planner.UploadWritesKey` and `Planner.UploadWellShaped` |
| Planner.UploadWritesKey | s3put.py:227-244 | an upload writes exactly its own key from the given file and ends with a write; it prints no decision line, and prints the `gzipped` line exactly for a gzip-eligible file |
| Planner.FilePlan | s3put.py:218-244 | one iteration of the directory loop; characterised by `Planner.FileDecision` and `Planner.FilePlanWellShaped` |
| Planner.PlanFiles | s3put.py:215-245 | the loop body for each considered file in turn; characterised by the directory-run lemmas below |
| Planner.FileDecision | s3put.py:218-244 | one file writes its key if and only if it is neither skipped nor in a dry run; outside quiet mode it prints exactly one decision line, Skipping when skipped and Copying otherwise |
| Planner.DryRunWritesNothing | s3put.py:224-227 | with `no_op`, directory mode makes no write and prints nothing but decision lines |
| Planner.DryRunPrintsRealDecisions | s3put.py:222-227 | a dry run prints exactly the decision lines the real run prints, in the same order, and nothing else |
| Planner.WritesExactlyUnskipped | s3put.py:219-228 | the keys a directory run writes are exactly the keys of the considered files that are not skipped, or none in a dry run |
| Planner.NoOverwriteKeepsExisting | s3put.py:219-221 | with `no_overwrite`, no key from the pre-fetched list is written |
| Planner.OneDecisionPerFile | s3put.py:215-226 | outside quiet mode, a run prints one decision line per considered file |
| Planner.UploadWellShaped | s3put.py:228-244 | a gzip file is announced by the `gzipped` line, put compressed with exactly the cache policy plus the guessed `Content-Type` (when one is found) and `Content-Encoding: gzip`, and then made public; any other file is put with the cache policy and the grant, and is never made public |
| Planner.WellShapedCarriesType | s3put.py:230-238 | in a well-shaped run every compressed put carries `Content-Encoding: gzip` and, when the table found a type for its file, that `Content-Type` |
| Planner.FilePlanWellShaped | s3put.py:218-244 | the same shape holds for everything one file's decision does |
| Planner.PlanWellShaped | s3put.py:215-244 | the same shape holds for a whole directory run; nothing is made public except right after its compressed put, which follows its `gzipped` line |
| Planner.AssetScenario | s3put.py:216-241 | `/src/assets/app.js` under `/src/` is reported, announced as gzipped, put compressed as `assets/app.js` with the long cache policy and the found type, then made public |
| Planner.ReadmeScenario | s3put.py:216-244 | `/src/readme.txt` under `/src/` is reported and streamed as `readme.txt` with `must-revalidate` and the grant |
| Planner.ExistingKeyScenario | s3put.py:219-223 | with `no_overwrite` and `readme.txt` already in the bucket, the file is only reported as skipped |
| Planner.WriteObject | s3put.py:228-244 | the header dict, updated in place, gives exactly the upload the planner specifies |
| Planner.HandleFile | s3put.py:216-244 | the loop body, with its `copy_file` flag, does exactly the per-file decision for the joined path |
| Planner.HandleFiles | s3put.py:215-245 | the loop over one directory's files does each file's decision in order and counts every file |
| Planner.VisitNext | s3put.py:211-245 | one step of the walk does the first directory's share of the run; with what remains, it accounts for the whole work list |
| Planner.PlanDirectory | s3put.py:211-245 | directory mode does each considered file's decision in walk order, and `total` counts every considered file, skipped ones included |
| Planner.SingleFilePlan | s3put.py:247-271 | corrected single-file mode: a skipped file prints only `Skipping <path>` (outside quiet mode) and gets no write; any other file is written from `path` under its base name alone, prints no decision line, prints the `gzipped` line exactly when `path` is gzip-eligible, and has the headers and shape of a directory-mode upload of `path` |
| Planner.SingleFileAsWritten | s3put.py:247-257 | single-file mode as written: a skipped file prints its line, any other file stops the run with NameError; characterised by `Planner.SingleFileAsWrittenFails` |
| Planner.SingleFileAsWrittenFails | s3put.py:254-257 | as written, single-file mode raises NameError for any file that is not skipped; the corrected mode writes exactly the base-name key |
| Planner.SingleFileIgnoresDryRun | s3put.py:254-255 | single-file mode does the same with and without `no_op` |
| Planner.SingleFileMatchesLoopBody | s3put.py:247-271 | in quiet, non-dry runs, single-file mode uploads a file as one directory-loop iteration would, when the directory key is the file's name |
| Planner.HandleSingleFile | s3put.py:247-271 | the single-file branch does exactly the corrected single-file plan: skip on an existing base-name key, otherwise upload under the base name |
| Planner.Run | s3put.py:199-273 | no bucket name means the usage text, and only it does; a directory gets the key-listing notice (with `no_overwrite`, outside quiet mode) and the directory plan with its count; a file gets the single-file plan; anything else does nothing |

## Left out

- Every boto call: connecting, `get_bucket`, `list`, `get_key`, `new_key`, the two
  `set_contents_from_*` calls and `make_public`. These are network I/O. Each write
  becomes an `Action`. The key listing and the `get_key` lookup become the list
  `Env.existing`.
- `compress_string` and the gzip library. A compressed put records the source path,
  not the compressed bytes.
- The clock and `email.Utils.formatdate`. The `Expires` date text is the opaque string
  `Env.expires`, one value for the whole run, although the program reads the clock
  once per file.
- `mimetypes.guess_type`. The system table is the function `Env.mimeTable`.
- Option parsing with `getopt`, `usage()`/`sys.exit`, the argument count check, and
  the defect at s3put.py:184 where `-w` is compared with `'w'`. `Config` holds the
  parsed settings. Only the `-p` normalisation is modelled (`Paths.ResolvePrefix`).
- File reading, `os.fstat` and the two sizes in the `gzipped: %dk to %dk` line (the
  line itself is the action `GzipNotice`), `submit_cb` progress
  callbacks, `num_cb`, the debug level, `expanduser`/`expandvars`/`abspath`, and
  `os.walk`'s directory listing itself. The tree is given as a `Tree.Dir` value.
- `Paths.PathJoin`: only the POSIX rules of `os.path.join`. Windows drive letters and
  the second separator are not modelled.
- `Tree.PrunedIsFilter` and `Tree.WalkSkipsExactlyIgnored` require unique sibling
  directory names, as in a real file system. Without that, pruning removes only the
  first directory of each ignored name, which is what `Tree.RemoveFirst` models.
- `Paths.ResolvePrefix`: the default prefix is `/`, whatever `os.sep` is, as in the
  code.

## Findings

| source | as written | input that shows it | evidently intended | confidence | as-written member | corrected member |
|---|---|---|---|---|---|---|
| s3put.py:256-257 | single-file mode passes `fullpath` to `get_headers` and `is_gzip`, but only the directory branch assigns it, so the call raises NameError | any regular file as the path, with a bucket name and a key that is not skipped | take the headers and the gzip test from `path`, as the upload at s3put.py:270 does | high; not executed | Planner.SingleFileAsWrittenFails | Planner.SingleFilePlan |

Single-file mode also never checks `no_op` (s3put.py:254-255) and prints no `Copying`
line. Both are modelled as written (`Planner.SingleFileIgnoresDryRun`).
