# Converter dispatch framework, modelled in Dafny

This project models the core of a small file-format conversion service. A
converter declares one (from, to) format pair, stored lowercased, and turns
an input buffer into an output buffer. The registry keeps converters in
registration order and hands out the first one that supports a requested
pair. The `POST /api/convert` handler checks, in this order, that a file
was uploaded, that both format parameters are present, and that a converter
exists; only then does it run that converter. The one concrete converter,
EPS to SVG, calls out to Inkscape through a scratch directory that it tries to
clean up once every step has settled.

Modules, one per source file or concern:

- `Formats` (formats.dfy): ASCII lowercasing and case-insensitive equality.
- `BaseConverter` (base_converter.dfy): the converter contract as a datatype. It covers construction (which refuses the abstract class), `supports`, the base `convert` and the base `getInfo`. The predicate `Constructed` picks out the converter values the constructors can actually produce. The registry and server lemmas are stated for every converter value, so they hold for those in particular.
- `FileSystem` (file_system.dfy): a class that holds the set of existing paths and a trace of attempted operations. Each file-system or child-process call is a method, and the success or failure of each call is an oracle argument.
- `EpsToSvg` (eps_to_svg.dfy): the EPS-to-SVG converter. Its `convert` is an imperative method. It is proved equal to three pure functions: what the call returns (`ConvertOutcome`), the operations it attempts in order (`ConvertTrace`), and the paths that exist afterwards (`FinalPaths`). The lifecycle properties are lemmas about those three functions.
- `Converters` (converters.dfy): late binding. An EPS converter uses its own `getInfo` and `convert`; every other class inherits the base versions.
- `ConverterRegistry` (converter_registry.dfy): the registry as a class with a `seq` field. `Register` appends. `FindConverter` and `GetAvailableConversions` are loops, proved against the pure first-match function `FindFirst` and the listing `Listing`. `IsSupported` has no loop of its own: it calls `FindConverter`.
- `Startup` (startup.dfy): the registration that happens at module load, and the registry contents it produces.
- `Server` (server.dfy): the response of `POST /api/convert` as a function `ConvertResponse`, the handler method proved equal to it, and the `GET /api/conversions` handler.

Two behaviours of the code are easy to miss:

- An output file that is read back empty is returned as a successful, empty result, and the handler sends it with status 200.
- The `try/catch` around the three cleanup calls can never catch anything, because each call has its own `.catch`. The model has just the three swallowed calls.
- Setting the response headers happens inside the handler's `try`. An upload whose base name holds a character that a header value may not carry (anything but tab, 0x20-0x7E and 0x80-0xFF) is converted and cleaned up, and then answered with 500 "Invalid character in header content ["Content-Disposition"]".

## Model

| member | source | states |
|---|---|---|
| `Formats.Lower` | converters/BaseConverter.js:14-15 | lowercasing keeps the length and lowercases every character (ASCII) |
| `Formats.LowerChar` | converters/BaseConverter.js:25 | only 'A'..'Z' change, each to its lowercase letter; no result is an upper-case letter |
| `Formats.LowerIdempotent` | converters/BaseConverter.js:14-15 | lowercasing twice equals lowercasing once; its results are exactly the already-lowercase strings |
| `Formats.LowerEqualIff` | converters/BaseConverter.js:25 | two strings lowercase to the same string iff they are equal ignoring case, position by position |
| `BaseConverter.New` | converters/BaseConverter.js:10-16 | constructing the abstract base fails with its message and yields no converter; any other class gets the lowercased pair |
| `BaseConverter.NewIsNormalized` | converters/BaseConverter.js:14-15 | every constructed converter stores a lowercase pair |
| `BaseConverter.SupportsIffEqualIgnoringCase` | converters/BaseConverter.js:24-26 | a constructed converter supports (from, to) iff both equal its constructor arguments ignoring case |
| `BaseConverter.SupportsCaseInsensitive` | converters/BaseConverter.js:25 | `supports(a, b)` equals `supports(Lower(a), Lower(b))` |
| `BaseConverter.SupportsOwnPair` | converters/BaseConverter.js:14-15 | a constructed converter supports its own stored pair |
| `BaseConverter.Supports` | converters/BaseConverter.js:24-26 | for a converter with a lowercase stored pair, `supports(from, to)` holds iff both arguments equal the stored pair ignoring case |
| `BaseConverter.SubclassIsConstructed` | converters/BaseConverter.js:10-16 | a subclass passing any pair to the base constructor gets a converter that is not abstract and stores a lowercase pair |
| `BaseConverter.Convert` | converters/BaseConverter.js:35-37 | the base convert fails with "convert() must be implemented by subclass" for every input and options |
| `BaseConverter.GetInfo` | converters/BaseConverter.js:43-49 | reports the stored pair and the class name, with no extra fields |
| `FileSystem.Join` | converters/EpsToSvgConverter.js:50-51 | `path.join(dir, name)` is a path strictly inside `dir` whose last segment is `name` |
| `FileSystem.TempName` | converters/EpsToSvgConverter.js:49 | the directory `mkdtemp` names lies directly under the system's temporary directory |
| `FileSystem.FileSystem.Probe` | converters/EpsToSvgConverter.js:23-30 | the version probe answers whether the tool runs and never throws; it creates no path, and the attempt is recorded |
| `FileSystem.FileSystem.MakeTempDir` | converters/EpsToSvgConverter.js:49 | on success the named directory exists and is returned; on failure the error is returned and no path is created; the attempt is recorded |
| `FileSystem.FileSystem.WriteFile` | converters/EpsToSvgConverter.js:55 | on success the input file exists; on failure no path is created; the attempt is recorded |
| `FileSystem.FileSystem.RunTool` | converters/EpsToSvgConverter.js:59-61 | returns the export's outcome; the output path exists afterwards iff the export wrote it, whatever its exit status; the attempt is recorded |
| `FileSystem.FileSystem.ReadFile` | converters/EpsToSvgConverter.js:64 | returns the bytes or the error of the read-back and changes no path; the attempt is recorded |
| `FileSystem.FileSystem.Unlink` | converters/EpsToSvgConverter.js:72-73 | a deletion succeeds iff the path exists and the call is allowed to succeed; only then is the path removed, and the attempt is recorded |
| `FileSystem.FileSystem.RemoveDir` | converters/EpsToSvgConverter.js:74 | removing the directory succeeds iff it exists, is empty and the call is allowed to succeed; only then is it removed, and the attempt is recorded |
| `EpsToSvg.Create` | converters/EpsToSvgConverter.js:15-17 | the converter's class is EpsToSvgConverter and its pair is ('eps', 'svg') |
| `EpsToSvg.GetInfo` | converters/EpsToSvgConverter.js:85-92 | the base fields, plus the description, a one-element requirements list naming Inkscape and an empty options map |
| `EpsToSvg.Convert` | converters/EpsToSvgConverter.js:38-79 | the call returns `ConvertOutcome`, appends exactly `ConvertTrace` to the operations attempted and leaves exactly `FinalPaths` on disk |
| `EpsToSvg.RunSteps` | converters/EpsToSvgConverter.js:53-68 | the `try` block returns `TryOutcome`, attempts exactly `TryTrace` and leaves exactly `TryPaths` |
| `EpsToSvg.Cleanup` | converters/EpsToSvgConverter.js:69-78 | the `finally` block attempts the three deletions in order and leaves exactly `CleanupPaths`, throwing nothing |
| `EpsToSvg.ProbeFailsFast` | converters/EpsToSvgConverter.js:39-46 | the probe is the first operation; if it fails the call throws the install message, attempts nothing else and creates no path |
| `EpsToSvg.TempDirFailureUnwrapped` | converters/EpsToSvgConverter.js:49 | a mkdtemp error propagates without the prefix, no cleanup is attempted and no path is created |
| `EpsToSvg.ScratchFilesInsideTempDir` | converters/EpsToSvgConverter.js:49-51 | the input and output paths are distinct and both lie inside the new temporary directory |
| `EpsToSvg.StepErrorsWrapped` | converters/EpsToSvgConverter.js:53-68 | once the directory exists, the call fails iff write, export or read-back fails, with "EPS to SVG conversion failed: " plus the first failing step's message |
| `EpsToSvg.SuccessIffAllStepsSucceed` | converters/EpsToSvgConverter.js:64-66 | the call succeeds with bytes b iff every step succeeds and the read-back yields b |
| `EpsToSvg.CleanupAlwaysAttempted` | converters/EpsToSvgConverter.js:69-78 | once the directory exists, every exit path ends with unlink(input), unlink(output), rmdir(dir) in that order, and no deletion happens earlier |
| `EpsToSvg.CleanupNeverChangesOutcome` | converters/EpsToSvgConverter.js:71-77 | whether the deletions succeed changes neither the result nor the operations attempted |
| `EpsToSvg.PreexistingPathsKept` | converters/EpsToSvgConverter.js:49-78 | for a fresh temporary directory, no path that existed before is removed, and the converter's own file-system calls create nothing outside the scratch workspace |
| `EpsToSvg.NoScratchLeft` | converters/EpsToSvgConverter.js:69-78 | for a fresh temporary directory, if the three deletions succeed then the paths afterwards are exactly those before, on every exit path |
| `Converters.GetInfo` | converters/EpsToSvgConverter.js:85-92 | `getInfo` reports the converter's pair and class name; the extra fields are present iff the converter is the EPS one |
| `Converters.ConvertOutcome` | converters/BaseConverter.js:35-37 | any converter other than the EPS one fails with the base "must be implemented" error |
| `Converters.Convert` | converters/EpsToSvgConverter.js:38-79 | dispatches to the EPS convert and its file-system effects, or to the base convert, which touches nothing |
| `ConverterRegistry.FindFirst` | converters/ConverterRegistry.js:25-27 | the result is the smallest index whose converter supports the pair; it is absent iff no converter supports it |
| `ConverterRegistry.Listing` | converters/ConverterRegistry.js:33-35 | one entry per converter, and entry i is converter i's `getInfo()` |
| `ConverterRegistry.ConverterRegistry.constructor` | converters/ConverterRegistry.js:6-8 | a new registry holds no converters |
| `ConverterRegistry.ConverterRegistry.Register` | converters/ConverterRegistry.js:14-17 | the new sequence is the old one plus the converter at the end, with no deduplication |
| `ConverterRegistry.ConverterRegistry.FindConverter` | converters/ConverterRegistry.js:25-27 | returns the converter at the first supporting index, or nothing iff none supports the pair; the registry is unchanged |
| `ConverterRegistry.ConverterRegistry.GetAvailableConversions` | converters/ConverterRegistry.js:33-35 | same length as the registry, entry i is converter i's `getInfo()`; the registry is unchanged |
| `ConverterRegistry.ConverterRegistry.IsSupported` | converters/ConverterRegistry.js:43-45 | true iff some registered converter supports the pair, iff the lookup finds one |
| `ConverterRegistry.SupportedIff` | converters/ConverterRegistry.js:43-45 | `isSupported` holds iff some registered converter supports the pair |
| `ConverterRegistry.EarlierRegistrationWins` | converters/ConverterRegistry.js:26 | when two converters support a pair, the lookup returns one at or before the earlier one, never the later |
| `ConverterRegistry.RegisterKeepsEarlierLookups` | converters/ConverterRegistry.js:14-26 | appending a converter keeps every successful lookup; a failed lookup then finds the new converter iff it supports the pair |
| `ConverterRegistry.RegisterExtendsListing` | converters/ConverterRegistry.js:14-35 | appending a converter appends exactly its `getInfo()` to the listing |
| `Startup.RegisterAll` | converters/index.js:5-9 | startup yields a new registry holding exactly one EPS-to-SVG converter |
| `Startup.SingleEpsToSvgConverter` | converters/index.js:9 | the startup registry has one entry, of class EpsToSvgConverter, with pair ('eps', 'svg') |
| `Startup.StartupConvertersConstructed` | converters/index.js:9 | every converter registered at startup is one the constructors can build |
| `Startup.StartupSupportedIff` | converters/index.js:9 | the startup registry supports a pair iff it equals (eps, svg) ignoring case |
| `Startup.StartupExamples` | converters/index.js:9 | ('eps','svg') and ('EPS','SVG') are supported; ('eps','pdf') is not |
| `Startup.StartupListing` | converters/index.js:9 | the startup listing is the single eps-to-svg entry |
| `Server.SendConverted` | server.js:84-100 | 200 with the output, `application/<to>`, `attachment; filename="<baseName>.<to>"` and the output length iff both header values are acceptable; otherwise a 500, naming Content-Type when that value is invalid and Content-Disposition when only that one is |
| `Server.ContentTypeValidIff` | server.js:85 | the Content-Type value is acceptable iff `to` is |
| `Server.DispositionValidIff` | server.js:86 | for an acceptable `to`, the Content-Disposition value is acceptable iff the base name is |
| `Server.HandleConvert` | server.js:45-101 | the handler sends `ConvertResponse`, including the 500 for an invalid header value; if the request fails a guard or finds no converter, the file system is untouched; otherwise exactly the selected converter's operations run |
| `Server.HandleConversions` | server.js:28-34 | `success` is true and `conversions` is exactly the registry listing |
| `Server.MissingFileFirst` | server.js:47-52 | a missing file gives 400 "No file uploaded", whatever the parameters, registry and environment |
| `Server.MissingParametersSecond` | server.js:54-61 | an absent or empty `from` or `to` gives 400 with the missing-parameters message, the same answer as with an empty registry |
| `Server.UnsupportedListsConversions` | server.js:63-72 | an unsupported pair gives 400 "No converter available for <from> to <to>" with the full registry listing |
| `Server.SelectedConverterDecides` | server.js:77-100 | with a converter selected, its error gives 500 with that message; its output is handed to the header-setting step `SendConverted` with `baseName` and `to` as sent |
| `Server.SuccessIff` | server.js:45-101 | status 200 iff every guard passes, the selected converter converts, and both header values are acceptable |
| `Server.UpperCaseTargetKeptVerbatim` | server.js:81-88 | 'EPS'/'SVG' is served with content type application/SVG and filename `<baseName>.SVG`: `to` is used as sent; when the base name holds an invalid header character the answer is the Content-Disposition 500 instead |
| `Server.NonLatinBaseNameFails` | server.js:84-100 | with the startup registry and a working export, the base name "中" (U+4E2D) still gets 500 with the Content-Disposition message |
| `Server.StartupRefusesEpsToPdf` | server.js:63-72 | with the startup registry, eps to pdf is refused and the listing holds exactly the eps-to-svg entry |
| `Server.StartupWithoutInkscape` | server.js:94-100 | with the startup registry and no Inkscape, eps to svg gives 500 with the install message |

## Left out

- Formats.Lower: lowercases ASCII letters only. JavaScript's `toLowerCase` also maps non-ASCII letters; that Unicode case mapping is not modelled.
- Subclasses: `BaseConverter.ConverterClass.Subclass` stands for any other subclass that passes a pair to the base constructor and overrides neither `convert` nor `getInfo`. Other subclasses with their own overrides exist only as an example comment in converters/index.js, so none is modelled.
- File system and processes: the version probe, `mkdtemp`, `writeFile`, the Inkscape command, and `readFile` are oracle outcomes. The command string and the 10 MB `maxBuffer` are not modelled; exceeding the buffer is just an export failure. A failed write is assumed to leave no file behind. Read-back is a pure oracle and does not look at the path set.
- FileSystem.FileSystem.Unlink, FileSystem.FileSystem.RemoveDir: the rules that `unlink` fails on a missing path and `rmdir` fails on a missing or non-empty directory are assumptions about the operating system. Node's `fs` library is not part of this model. `EpsToSvg.NoScratchLeft` and `EpsToSvg.PreexistingPathsKept` rely on these two rules.
- FileSystem.FileSystem.RunTool: whether the export leaves an output file is an oracle input, independent of its exit status. The export is assumed to create no path other than that output file. Inkscape may also write profile or cache files; files it left inside the scratch directory would make `rmdir` fail. The read-back is not tied to it either: a read of a missing output file is modelled only as whatever error the read oracle gives.
- FileSystem.FileSystem.Probe: the version probe is assumed to create no path. Inkscape's own profile or cache files are not modelled.
- Settling: every oracle call is assumed to settle, by succeeding or failing. `execAsync` sets no timeout for the probe or the export. A tool that hangs leaves its call pending, so the `finally` cleanup never runs and no response is sent. That case is outside the model.
- The temporary directory: `os.tmpdir()` and the random `mkdtemp` suffix are oracle inputs. Uniqueness is not modelled; `EpsToSvg.PreexistingPathsKept` and `EpsToSvg.NoScratchLeft` take it as a hypothesis.
- The standalone `isInkscapeAvailable` method (converters/EpsToSvgConverter.js:23-30) appears only as the probe step, whose outcome is an oracle boolean.
- File contents are not tracked. Only which paths exist is modelled, so the bytes written to the input file are not related to the output.
- Logging (`console.log`, `console.error`) is left out.
- The module-level singleton export of the registry is left out; the registry is an explicitly constructed object.
- Concurrency and the asynchronous scheduling of the awaits are left out. Each call runs its steps in sequence.
- In server.js: multer, cors, the static files, `res.sendFile`, `app.listen` and its banner, and the 50 MB upload limit are HTTP plumbing. `path.parse(originalname).name` is taken as the abstract `baseName` of the upload.
- Server.SendConverted: the header-value rule and the error text come from Node's `http` library, which is not part of this model. Express's `res.set` can append a charset to the Content-Type of some well-known media types; the model keeps `application/<to>` unchanged. Content-Length is a number and is always acceptable.
- `from` and `to` are modelled as absent or as strings. A non-string body field (which would make `toLowerCase` throw inside the `try`, giving a 500) is not modelled.
- app.js (the browser UI) is not part of this model.
