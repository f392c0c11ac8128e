# site-cloner capture core, modelled in Dafny

`clone.js` loads one page in a headless browser and saves what the page fetched.
It listens to every network response, keeps the renderable ones and writes each one
once under `assets/`. Then it scrolls the page to the bottom, pauses animation
libraries, and writes the rendered markup, an optional DOM snapshot and optional
animation metadata. This project models the logic inside that script:

- `safe_name.dfy` (module `SafeNames`): the file-name sanitiser `safeName`.
  The regular expression (no `u` flag) and `slice` see a string as UTF-16 code
  units. The model takes a string as the sequence of its code units, one `char`
  each; a surrogate unit, which Dafny's `char` cannot hold, is written as any
  stand-in `char` outside the safe set. Every such unit becomes `_`, so the choice
  of stand-in does not matter. Without `u`, case-insensitive matching never folds
  a non-ASCII unit onto ASCII, so the kept set is exactly ASCII `[A-Za-z0-9_.-]`.
- `classifier.dfy` (module `Classifier`): extension resolution and asset naming.
  It covers the path extension (Node's `path.extname`, written out on the pathname),
  the ordered `content-type` probes, and the name `safeName(host+path+query)` with
  `_.bin` appended when no extension was found.
- `capture.dfy` (module `Capture`): the response handler as a pure decision
  `Decide`. Beside it is the class `CaptureSink`, which holds the `saved` set, the
  `assets/` directory as a map from name to bytes, and a log of the URLs whose body
  was read. `OnResponse` handles one event. Lemmas over a sequence of events state
  the session-level dedup properties.
- `scroll.dfy` (module `Scroll`): the tick counting of `autoScroll`, as a loop.
- `artifacts.dfy` (module `Artifacts`): which top-level files a run writes.
- `wrappers.dfy` (module `Wrappers`): `Option`. It stands for a JavaScript
  `undefined` and for a call that throws inside a `try`.

Inputs that come from the browser or the file system are parameters of the model:
- the parsed URL fields;
- the `content-type` header;
- the body buffer, or its absence when `resp.buffer()` throws;
- whether a file write succeeds;
- the document height;
- the snapshot and animation-probe results.

Behaviour of `clone.js` a reader may not expect:
- The extension inferred from `content-type` is never appended to the file name
  (clone.js:61). It only stops `_.bin` being added. An extension-less `image/png`
  resource is saved as the bare sanitised key, not with `.img`
  (`Classifier.ImageWithoutPathExtension`).
- File names are not collision-free. The dedup key is the raw URL, but the name
  drops the scheme and port and is cut to 200 units. Two URLs can therefore share
  a file, and the later write replaces the earlier one (`Capture.OneFileForTwoUrls`,
  `Capture.SchemeIsDroppedFromNames`, `SafeNames.SafeNameTruncates`).
- Errors inside the response handler are caught and discarded (clone.js:64).
- A run that saves no asset ends normally. `browser.close()` (clone.js:120) is
  not in a `finally`, so an uncaught error skips it.

## Model

| member | source | states |
|---|---|---|
| `SafeNames.Scrub` | clone.js:8 | one code unit maps to a safe unit, and a safe unit is kept |
| `SafeNames.Replace` | clone.js:8 | the global replace keeps the length and maps unit `i` to `Scrub(u[i])` |
| `SafeNames.SafeName` | clone.js:8 | the length is `min(|u|, 200)`, every unit is in `[A-Za-z0-9_.-]`, each allowed unit stays in place and each other unit becomes exactly one `_` |
| `SafeNames.SafeNameFixesSafe` | clone.js:8 | a safe string of at most 200 units is its own name |
| `SafeNames.SafeNameIdempotent` | clone.js:8 | `safeName(safeName(u)) == safeName(u)` |
| `SafeNames.SafeNameTruncates` | clone.js:8 | inputs that agree on their first 200 units get the same name |
| `Classifier.ExtName` | clone.js:52 | `path.extname(pathname)` is empty or starts with `.` and holds no `/` and no further `.` |
| `Classifier.ExtNameOfFile` | clone.js:52 | a last segment `stem.e`, with `e` free of `.` and the segment not `..`, gives exactly the extension `.e` |
| `Classifier.ExtNameWithoutDot` | clone.js:52 | a last segment with no `.` after its first unit (`logo`, `.bashrc`) gives no extension |
| `Classifier.ExtNameOfDotDot` | clone.js:52 | the segment `..` gives no extension |
| `Classifier.ExtNameIgnoresTrailingSlash` | clone.js:52 | a trailing `/` does not change the extension |
| `Classifier.InferExtension` | clone.js:53-60 | the result is empty exactly when no probe matches; otherwise it is the extension of the first probe, in the order javascript, css, html, font, image, that the header includes (case-sensitive) |
| `Classifier.ResolveExtension` | clone.js:52-60 | a non-empty path extension is the result whatever the header; the result is empty exactly when the path has no extension and no probe matches the header, a missing header counting as `''` |
| `Classifier.AssetName` | clone.js:61 | the name is safe and has length `min(key, 200)` plus 5 when the extension is empty, so at most 205; it starts with `safeName(host+path+query)`, is exactly that when the extension is not empty, and is that followed by `_.bin` when it is empty |
| `Classifier.NameAsset` | clone.js:52-61 | the handler's imperative extension choice and naming give `AssetName` of the resolved extension, a well-formed asset name |
| `Classifier.ExtensionOnlySuppressesSuffix` | clone.js:61 | two extensions that are both empty or both non-empty give the same name: the extension text never reaches the name |
| `Classifier.MissingHeaderGivesNoExtension` | clone.js:54 | a missing header counts as `''` and, with no path extension, yields no extension |
| `Classifier.ImagePngIsImg` | clone.js:55-59 | `image/png` resolves to `.img` |
| `Classifier.ImageWithoutPathExtension` | clone.js:52-61 | an extension-less path served as `image/png` resolves to `.img` and is named by the bare sanitised key |
| `Classifier.TextPlainHasNoExtension` | clone.js:55-59 | `text/plain` matches no probe |
| `Classifier.UnknownContentGetsBinSuffix` | clone.js:52-61 | an extension-less path served as `text/plain` gets the name `safeName(key) + "_.bin"` |
| `Classifier.PathExtensionWins` | clone.js:52-53 | a non-empty path extension is used whatever the header, and no suffix is added |
| `Capture.Decide` | clone.js:39-64 | the body is read exactly when the type is one of the six, the URL is not in `saved` and the status is below 400; a response is saved exactly when, in addition, the body reads and is non-empty, the URL parses and the write succeeds; the name written is `AssetName` of the URL fields and header |
| `Capture.CaptureSink.constructor` | clone.js:38 | the session starts with an empty `saved` set, no files and no body reads |
| `Capture.CaptureSink.OnResponse` | clone.js:39-64 | one event does what `Decide` says: `saved` gains the URL only on a successful write; the file map changes only then, at that name; the read log grows by the URL exactly when the body is read; saved URLs were read and file names stay well-formed |
| `Capture.CaptureSink.OnResponses` | clone.js:39-64 | handling a sequence of events one after another writes exactly the URLs `SavedUrls` lists, each once and none already saved, and leaves `saved`, the `assets/` map and the read log as the session folds `FinalSaved`, `FinalFiles` and `ReadUrls` give them |
| `Capture.CaptureSink.Store` | clone.js:62-63 | the write of `assets/<name>` is followed by `saved.add(url)` and nothing else changes |
| `Capture.EachUrlSavedOnce` | clone.js:45-63 | over any sequence of events: no URL is written twice, none that was already saved is written, and the final `saved` set is the start set plus exactly the URLs written |
| `Capture.SavedOnlyGrows` | clone.js:45-63 | `saved` never loses a URL over a sequence of events |
| `Capture.FailedWriteIsRetried` | clone.js:62-64 | a failed write leaves the URL out of `saved`, and the same response with a working write is then saved under the same name |
| `Capture.OneFileForTwoUrls` | clone.js:61-63 | two different URLs with the same host, path, query and header are both saved, under one name |
| `Capture.SchemeIsDroppedFromNames` | clone.js:61-63 | `http://h/` and `https://h/` are both saved and share one file |
| `Scroll.FirstReachingTick` | clone.js:13-18 | the first tick count whose total reaches the height is `max(1, ceil(H/step))` |
| `Scroll.DefaultStepTicks` | clone.js:10 | with the default step 500, which the only call uses, heights 0 and 500 take one tick and 501 takes two |
| `Scroll.AutoScroll` | clone.js:10-22 | with `step > 0` the loop ends after `max(1, ceil(H/step))` ticks; at exit `total == ticks * step`, `total >= H` and, when `H > 0`, `total - step < H` |
| `Artifacts.OutputFiles` | clone.js:79-118 | `rendered.html` is always written first; `domsnapshot.json` is written exactly when the snapshot succeeded; `scrolltriggers.json` and `gsap_tweens.json` are written exactly when the probe returned a non-empty list for them; no file is written twice |
| `Artifacts.SnapshotFailureIsIsolated` | clone.js:82-118 | a failed snapshot removes only `domsnapshot.json`; the animation files are unaffected |

## Left out

- `clone-mcp.js` is not part of this model. It is the remote-tool server and the `execa` calls that run `clone.js` and `zip`: process and network plumbing.
- The browser session is not modelled: `launch`, `goto` with its 120 s `networkidle2` timeout, `page.evaluate`, `page.content()`, the CDP `DOMSnapshot.captureSnapshot` call, and the `lenis`/`gsap` pause hooks (clone.js:35-36, 67, 71-77, 79, 83-86). These are foreign calls; their results enter as parameters.
- The mapping of scroll triggers and tweens to descriptors (clone.js:94-107) probes page globals. Each descriptor is an opaque JSON string, and each list is an optional sequence.
- Concurrency is left out. In the source, several handlers can pass `saved.has` before any reaches `saved.add` across the `await`s (clone.js:45-63). The model handles events one after another.
- Timers (`setInterval`, `setTimeout`, clone.js:15-19, 69) are left out; only the tick count is kept. `window.scrollBy` and the page's scroll position are not modelled.
- File-system I/O is not modelled. A write is an update of an abstract map that may fail. A failed write is taken to leave the map unchanged, so partial files are not modelled. Directory creation and `process.argv` handling with its usage exit (clone.js:7, 25-33) are left out.
- `Artifacts.OutputFiles`: assumes the writes of `rendered.html`, `scrolltriggers.json` and `gsap_tweens.json` succeed. In the source these are not in a `try`, and a failure ends the run, which this model leaves out. A failed `domsnapshot.json` write is inside the `try` and counts as a failed snapshot.
- WHATWG URL parsing is left out. The parsed `hostname`, `pathname` and `search` are inputs, and a failed parse is an input too. `Classifier.ExtName` follows Node's POSIX `extname` on the pathname; Windows path rules are left out.
- `Scroll.AutoScroll`: requires `step > 0`, which is what the only caller passes (`Scroll.DefaultStep`, 500). With `step < 0`, or `step == 0` and a positive height, the source never stops; `step == 0` with height 0 stops after one tick, which the model does not cover.
- Non-ASCII and surrogate code units in the naming key are modelled only through stand-in `char`s (see `SafeNames` above). In practice the key is ASCII, because URL parsing percent-encodes the path and query and punycodes the host.
- `rawUrl.trim()` and `path.resolve` (clone.js:30-31) deal with arguments only and are left out.
