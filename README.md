# GIF render jobs, modelled in Dafny

This project models the render-job core of a web application. The application overlays named
text variables on a short video and exports it as an animated GIF. It can render one GIF, or a
bulk set with one GIF per line of uploaded `.txt` files. Three parts of the application are
modelled:

- **`FFmpegUtils`** (`src/app/api/utils/ffmpeg.ts`), the shared render planner. It downloads the
  video, writes one scratch text file per overlay and builds the FFmpeg `drawtext` filter that
  reads them. It runs FFmpeg, reads the GIF back and hands over the list of scratch files its
  cleanup unlinks. In bulk mode it also derives every iteration's variable values and GIF file
  name from the line lists.
- **The `POST /api/generate-gif` handler** (`src/app/api/generate-gif/route.ts`) renders one GIF
  with per-request timestamped scratch paths. It answers with the GIF or a JSON 500 error, and
  its `finally` block unlinks every scratch file it has recorded.
- **The variable editor** (`src/app/components/VariableEditor.tsx`) holds the overlay map of a
  GIF card and the `.txt` files attached to its variables. It covers:
  - adding, deleting and editing variables, each behind its guards;
  - reading attached files into line lists;
  - choosing between a single and a bulk render.

The Dafny modules follow that structure:

| module | file | what it holds |
|---|---|---|
| `Wrappers` | `wrappers.dfy` | `Option` and `Result` |
| `JsText` | `jstext.dfy` | the JavaScript string and number primitives the code uses: `trim`, `split`, `join`, `replace`, integer printing and `parseInt` |
| `JsObject` | `jsobject.dfy` | plain objects as sequences of properties with distinct keys in ECMAScript own-property order; spread-assignment (`Put`) and `delete` (`Remove`) |
| `Io` | `io.dfy` | the host: a scratch disk (a map from path to contents) plus oracles that decide whether a fetch, a write, a read or an FFmpeg run succeeds, and what it yields |
| `Variables` | `variables.dfy` | the overlay data and the blank-to-space sanitiser |
| `Overlay` | `overlay.dfy` | the scratch-file naming scheme, the `drawtext` filter, and the loop that writes the overlay texts |
| `Ffmpeg` | `ffmpeg.dfy` | the `FFmpegUtils` class: its download, single and bulk jobs, and the pure rules for iteration count, value resolution and file names |
| `GenerateGifRoute` | `generate_gif_route.dfy` | the `POST` handler with its `try`/`catch`/`finally` |
| `Editor` | `variable_editor.dfy` | the `VariableEditor` state class and the file-reading pipeline |

The steps that change state are `method`s on classes: `Io.Host` for the disk,
`Ffmpeg.FFmpegUtils` for the fixed configuration and `Editor.VariableEditor` for the component
state. Each is specified against pure functions, such as the disk after the overlay writes
(`Overlay.Stored`) or the scratch list after `k` bulk iterations
(`Ffmpeg.FFmpegUtils.TempFiles`). Lemmas prove what the code promises about those functions.

## Model

| member | source | states |
|---|---|---|
| `JsText.Trim` | src/app/components/VariableEditor.tsx:414 | `trim()` leaves no whitespace at either end, and yields the empty string exactly when the text is all whitespace |
| `JsText.TrimIsInfix` | src/app/components/VariableEditor.tsx:414 | what `trim()` keeps occurs in the text at some index `k`, with only whitespace before it and only whitespace after it (`WhitespaceAround`) |
| `JsText.TrimOfTrimmed` | src/app/components/VariableEditor.tsx:414 | trimming a text with no whitespace at either end changes nothing |
| `JsText.Split` | src/app/components/VariableEditor.tsx:414 | `split` on one character yields at least one piece, and no piece contains the separator |
| `JsText.JoinSplit` | src/app/components/VariableEditor.tsx:413-414 | joining the pieces of a split with the separator gives back the original text |
| `JsText.SplitJoin` | src/app/components/VariableEditor.tsx:409-420 | splitting a join of separator-free pieces gives back exactly those pieces |
| `JsText.ReplaceAll` | src/app/api/utils/ffmpeg.ts:53 | `replace(/\\/g, '/')` keeps the length, leaves no backslash, and leaves a backslash-free text unchanged |
| `JsText.ReplaceFirstAt` | src/app/api/utils/ffmpeg.ts:86 | a string-pattern `replace` rewrites only the first occurrence, and leaves a text without it unchanged |
| `JsText.NatTextInjective` | src/app/api/utils/ffmpeg.ts:80 | distinct timestamps, iterations and indices print as distinct decimal numerals |
| `JsText.NatTextValue` | src/app/api/utils/ffmpeg.ts:80 | reading a printed numeral gives back the number |
| `JsText.ParseIntOfNumeral` | src/app/api/utils/ffmpeg.ts:88 | `${parseInt(n + unit)}` is the numeral `n` for any unit that starts with neither a digit nor an `x` |
| `JsText.JoinFlatten` | src/app/api/utils/ffmpeg.ts:97-105 | joining each overlay's pair with `,` and then the pairs with `,` equals joining all passes with `,` |
| `JsObject.Put` | src/app/components/VariableEditor.tsx:337-343 | `{...o, [k]: v}`: `k` now maps to `v`; every other key is present and mapped exactly as before; an existing key keeps its place; a new key adds one property, at the end when own-property order allows |
| `JsObject.Remove` | src/app/components/VariableEditor.tsx:364-371 | `delete o[k]`: `k` is gone; every other key is present and mapped exactly as before; the size drops by one exactly when `k` was there; the remaining keys keep their relative order (the key list loses exactly the entry at `k`'s position); a missing `k` leaves the object unchanged |
| `Variables.BlankIffTrimmedEmpty` | src/app/api/utils/ffmpeg.ts:241 | a value counts as blank exactly when `value.trim() === ""` |
| `Variables.SanitizeValue` | src/app/api/utils/ffmpeg.ts:241 | the result is `" "` exactly when the value is blank; any other value is kept; the result is never empty |
| `Variables.SanitizeData` | src/app/api/utils/ffmpeg.ts:239-242 | `{...data, value}` keeps the position and sanitises the text |
| `Variables.SanitizeVariables` | src/app/api/utils/ffmpeg.ts:235-245 | `sanitizeVariables` keeps every key in its place with its position, sets a value to `" "` exactly when it is blank, and leaves every other value unchanged |
| `Variables.SanitizeVariablesIdempotent` | src/app/api/utils/ffmpeg.ts:235-246 | sanitising twice is sanitising once |
| `Variables.SanitizeVariablesGet` | src/app/components/VariableEditor.tsx:233-241 | a lookup in the sanitised map of the single render yields the sanitised variable, and only for keys the map has |
| `Overlay.TextPaths` | src/app/api/utils/ffmpeg.ts:77-81 | the text files of `n` overlays are `n` paths, and path `j` is `text-{ts}{-i}-{j}.txt` in the job's folder |
| `Overlay.TextFileNameInjective` | src/app/api/utils/ffmpeg.ts:80 | two text-file names are equal exactly when their timestamp, iteration and index are equal |
| `Overlay.OutputGifNameInjective` | src/app/api/utils/ffmpeg.ts:208 | two output names are equal exactly when their timestamp and iteration are equal |
| `Overlay.NameKindsDiffer` | src/app/api/utils/ffmpeg.ts:53 | the input video, output GIF and text-file names never collide |
| `Overlay.NamesArePlain` | src/app/api/utils/ffmpeg.ts:143 | no scratch-file name contains a backslash, so slash conversion leaves it alone |
| `Overlay.ScratchPathInjective` | src/app/api/utils/ffmpeg.ts:78-81 | in one folder, distinct backslash-free names give distinct scratch paths |
| `Overlay.TextPathsDistinct` | src/app/api/utils/ffmpeg.ts:74-84 | within one render, distinct overlay indices get distinct text paths |
| `Overlay.FontPathEscapesDrive` | src/app/api/utils/ffmpeg.ts:33-35 | for a Windows-style `C:\...` location, the font path has forward slashes and its drive colon escaped as `\:` |
| `Overlay.FontPathWithoutColon` | src/app/api/generate-gif/route.ts:24-26 | a font path without a colon only has its backslashes turned into slashes |
| `Overlay.Shadow` | src/app/api/utils/ffmpeg.ts:92-98 | the shadow pass is the foreground pass with `+2` on x and y and `fontcolor=black`; text file, font size and font are the same |
| `Overlay.CenteredIgnoresLeft` | src/app/api/utils/ffmpeg.ts:92-93 | with `horizontalCenter` set, both x values are `(w-text_w)/2`-based, so the overlay's filter does not depend on `left` |
| `Overlay.FontSizeOfPixels` | src/app/api/generate-gif/route.ts:56 | a size written `{n}px` reaches the filter as `fontsize={n}` |
| `Overlay.FilterStrings` | src/app/api/utils/ffmpeg.ts:76-102 | one filter per overlay, in entry order, each drawing that overlay from its own text file |
| `Overlay.PassesAt` | src/app/api/utils/ffmpeg.ts:97-100 | the chain has two passes per overlay: overlay `j`'s shadow at `2j`, drawn before its foreground at `2j+1` |
| `Overlay.FilterComplexIsChain` | src/app/api/utils/ffmpeg.ts:105 | the filter is one flat `,`-separated chain of all those passes |
| `Overlay.Stored` | src/app/api/utils/ffmpeg.ts:83 | after the text writes, the disk holds exactly its earlier paths plus the text paths |
| `Overlay.StoredAt` | src/app/api/utils/ffmpeg.ts:83-84 | each text path holds its own overlay's text verbatim, and every other file is untouched |
| `Overlay.StoredElsewhere` | src/app/api/generate-gif/route.ts:51 | a path none of the text writes touched keeps whatever the disk held there |
| `Overlay.WriteOverlays` | src/app/api/utils/ffmpeg.ts:73-107 | writes the texts in order and stops at the first failing write. It returns the text paths written so far, which are a prefix of the naming scheme, and the disk is `Stored` of the old disk with them. It succeeds exactly when every overlay write is allowed (`WritesAllowed`), and then returns one path per overlay and the filter over them; otherwise the next path is the first refused write (`FirstRefused`) |
| `Overlay.RenderFailureExclusive` | src/app/api/utils/ffmpeg.ts:145-149 | the steps after the download (the overlay writes, FFmpeg, the read-back) run in that order: a render whose failure names a step (`RenderFailure`) did not have every step succeed (`RenderSucceeds`), and no other error names a failed step of it |
| `Io.Host.Fetch` | src/app/api/utils/ffmpeg.ts:56-57 | yields the body the network answers with, or `FetchFailed` |
| `Io.Host.WriteFile` | src/app/api/utils/ffmpeg.ts:58 | on success the path holds the data; on failure the disk is unchanged |
| `Io.Host.ReadFile` | src/app/api/utils/ffmpeg.ts:149 | yields the file's contents, or `ReadFailed` when it is missing or unreadable |
| `Io.Host.RunFfmpeg` | src/app/api/utils/ffmpeg.ts:115-133 | on `end` the output path holds what FFmpeg rendered from the disk as it was; on `error` the disk is unchanged |
| `Io.Host.Unlink` | src/app/api/utils/ffmpeg.ts:64 | `unlink(path).catch(() => {})`: the path is gone afterwards and no error escapes |
| `Io.Host.UnlinkAll` | src/app/api/generate-gif/route.ts:112-117 | afterwards the disk is the old disk less every listed path |
| `Ffmpeg.MaxLines` | src/app/api/utils/ffmpeg.ts:174 | `Math.max(...lengths)` is `-Infinity` exactly when there are no line lists |
| `Ffmpeg.MaxLinesIsMaximum` | src/app/api/utils/ffmpeg.ts:173-174 | a finite maximum bounds every list's length and is the length of one of them |
| `Ffmpeg.ResolvedValue` | src/app/api/utils/ffmpeg.ts:191-196 | a variable's line wins; without one, its own text is used with a blank text replaced by `" "` |
| `Ffmpeg.Resolved` | src/app/api/utils/ffmpeg.ts:201-204 | `currentVariables` has one entry per variable, in entry order, with the variable's key and its resolved data |
| `Ffmpeg.ResolvedVariablesSpec` | src/app/api/utils/ffmpeg.ts:187-205 | in iteration `i`, every key keeps its place and position. A variable whose list has a non-empty line `i` shows that line; any other shows its own text, sanitised |
| `Ffmpeg.SanitizeFilename` | src/app/api/utils/ffmpeg.ts:198 | the name keeps its length, so a non-empty line never gives an empty name, and has only `[a-zA-Z0-9\-_]` characters |
| `Ffmpeg.SanitizeFilenameFixes` | src/app/api/utils/ffmpeg.ts:197-198 | the sanitiser leaves a name unchanged exactly when it is already safe |
| `Ffmpeg.SanitizeFilenameIdempotent` | src/app/api/utils/ffmpeg.ts:195-199 | sanitising twice is sanitising once |
| `Ffmpeg.SanitizeFilenameChanges` | src/app/api/utils/ffmpeg.ts:196-199 | a character changes exactly when it is unsafe, and then it becomes `_` |
| `Ffmpeg.FilenameLastLineWins` | src/app/api/utils/ffmpeg.ts:188-199 | the file is named by the sanitised line of the last variable, in entry order, that has a line in the iteration |
| `Ffmpeg.FilenameWithoutLines` | src/app/api/utils/ffmpeg.ts:188 | with no line in the iteration, the file is named `{gifName}_{i+1}` |
| `Ffmpeg.GifFilename` | src/app/api/utils/ffmpeg.ts:219 | every bulk file name ends in `.gif` |
| `Ffmpeg.ResolveIteration` | src/app/api/utils/ffmpeg.ts:186-205 | the `forEach` walk yields exactly the resolved variables and the last-line-wins file name |
| `Ffmpeg.IterationNameInjective` | src/app/api/utils/ffmpeg.ts:208-212 | the scratch-file names of bulk iterations are pairwise distinct across iterations and within one |
| `Ffmpeg.IterationNamePlain` | src/app/api/utils/ffmpeg.ts:211 | no iteration file is named like the input video, and none contains a backslash |
| `Ffmpeg.FFmpegUtils.constructor` | src/app/api/utils/ffmpeg.ts:28-39 | the configuration is fixed once: the escaped font path, `/tmp` and the construction timestamp |
| `Ffmpeg.FFmpegUtils.IterationFiles` | src/app/api/utils/ffmpeg.ts:208-212 | iteration `k` adds `output-{ts}-{k}.gif`, then its text files in entry order |
| `Ffmpeg.FFmpegUtils.IterationFilesInjective` | src/app/api/utils/ffmpeg.ts:209-212 | two iteration files share a path only if they are the same file of the same iteration |
| `Ffmpeg.FFmpegUtils.TempFilesOrigin` | src/app/api/utils/ffmpeg.ts:170-212 | every entry of `tempFiles` is a file of one of the iterations run so far |
| `Ffmpeg.FFmpegUtils.TempFilesDistinct` | src/app/api/utils/ffmpeg.ts:209-212 | `tempFiles` names every scratch file of the iterations once |
| `Ffmpeg.FFmpegUtils.CleanupListDistinct` | src/app/api/utils/ffmpeg.ts:226-230 | the bulk cleanup unlinks the video and every iteration's files, each exactly once |
| `Ffmpeg.FFmpegUtils.DownloadVideo` | src/app/api/utils/ffmpeg.ts:52-67 | on success `input-{ts}.mp4` holds the fetched body and its path is returned; a failed fetch or write changes nothing and says which step failed |
| `Ffmpeg.FFmpegUtils.CreateTextFilesAndFilters` | src/app/api/utils/ffmpeg.ts:69-108 | the job's text files hold the overlay texts; it succeeds exactly when every overlay write of the job is allowed, with one file per overlay and the filter using this job's font; otherwise it names the first refused path |
| `Ffmpeg.FFmpegUtils.GenerateGif` | src/app/api/utils/ffmpeg.ts:110-134 | succeeds exactly when FFmpeg renders the GIF command (`-vf`, `gif`, `-loop 0`, `-r 10`), and the output path then holds the result |
| `Ffmpeg.FFmpegUtils.RenderOverlaid` | src/app/api/utils/ffmpeg.ts:145-149 | the steps shared by the single job and every bulk pass (lines 211-217 as well): write the overlay files, render and read back. `disk` is the old disk plus the texts written. The outcome is `Ok` exactly when every step succeeds on that disk, and then it is FFmpeg's render of the job's command, as held at the output path; an error names the failing step (`WriteFailed` of the first refused path, `RenderFailed` when FFmpeg fails, `ReadFailed` when the read is refused). Only the GIF changes besides the texts |
| `Ffmpeg.FFmpegUtils.GenerateSingleGif` | src/app/api/utils/ffmpeg.ts:136-159 | a failed fetch gives `FetchFailed`, a refused video write `WriteFailed` of the video path. After the download the outcome is `Ok` exactly when every later step succeeds on the disk with the video and the overlay texts, and otherwise names the failing step. The GIF is what FFmpeg rendered for the job's own command on that disk. The cleanup list is the video, the GIF and the text files, which are exactly the paths the job added. A failure leaves every file in place |
| `Ffmpeg.FFmpegUtils.RenderIteration` | src/app/api/utils/ffmpeg.ts:186-221 | one pass resolves iteration `i`'s variables and, when every write is allowed, writes their texts to its own text files, one per variable, on a disk that keeps the video. The outcome is `Ok` exactly when every step succeeds on that disk, and otherwise names the failing step. The GIF is what FFmpeg rendered for iteration `i`'s command on exactly that disk, it is what `output-{ts}-{i}.gif` holds when read back, and it is named by `GifFilename`. Only that iteration's files are added or changed |
| `Ffmpeg.FFmpegUtils.IterationFrame` | src/app/api/utils/ffmpeg.ts:208-217 | a pass that writes its texts and then its GIF changes only its own scratch files, keeps the video, and with all writes done adds exactly its `IterationFiles`, its text paths holding its texts |
| `Ffmpeg.FFmpegUtils.VideoNotIterationFile` | src/app/api/utils/ffmpeg.ts:208-212 | no bulk iteration writes over the downloaded video |
| `Ffmpeg.FFmpegUtils.GifsOnDiskStep` | src/app/api/utils/ffmpeg.ts:208-218 | an iteration writes only its own files, so the GIFs of earlier iterations stay on disk as they were read |
| `Ffmpeg.FFmpegUtils.RenderIterations` | src/app/api/utils/ffmpeg.ts:182-224 | the loop appends one `{filename, buffer}` per iteration, in index order. GIF `k` is FFmpeg's render of iteration `k`'s resolved variables, on a disk holding the video and iteration `k`'s texts. It is still on disk at `output-{ts}-{k}.gif`, and `tempFiles` grows to `TempFiles`. On success every write and read of every pass was allowed. On failure the GIFs `done` of the passes before are as above, and pass `|done|` failed with the error naming its failing step, on a disk holding the video and, when that pass's text writes were allowed, its texts at its text paths (`FailedAfter`) |
| `Ffmpeg.FFmpegUtils.BulkProgressStep` | src/app/api/utils/ffmpeg.ts:208-221 | a successful pass `i` moves the loop's state (`BulkProgress`) to `i + 1`: its GIF, names, variables and scratch files are appended, and the earlier GIFs stay on disk |
| `Ffmpeg.FFmpegUtils.BulkProgressFailed` | src/app/api/utils/ffmpeg.ts:211-217 | a failed pass `i` ends the loop in `FailedAfter`: the earlier passes rendered their GIFs, and the error names the failing step of pass `i`, which is never the empty-files error; the failing pass's disk holds the video and, when its text writes were allowed, its texts |
| `Ffmpeg.FFmpegUtils.FailedAfterSucceeds` | src/app/api/utils/ffmpeg.ts:183-221 | after a failed bulk job, every pass before the failed one had every step succeed, and the failed one did not |
| `Ffmpeg.FFmpegUtils.RenderedFromSucceeds` | src/app/api/utils/ffmpeg.ts:211-221 | a pass whose GIF was rendered, and whose writes and read were allowed, had every step succeed |
| `Ffmpeg.FFmpegUtils.IterationStep` | src/app/api/utils/ffmpeg.ts:209-221 | one more iteration extends `tempFiles`, the names and the variables by that iteration's entries |
| `Ffmpeg.FFmpegUtils.GenerateBulkGifs` | src/app/api/utils/ffmpeg.ts:161-233 | a failed fetch gives `FetchFailed`, a refused video write `WriteFailed` of the video path; the empty-files error is raised exactly when the download succeeded and the maximum is 0. On success: `gifs.length` is the iteration count of `maxLines`, and the names are the per-iteration names in order. GIF `k` is FFmpeg's render of iteration `k`'s resolved variables, on a disk holding the downloaded video and iteration `k`'s texts, and every write and read was allowed. The cleanup list is the video followed by `tempFiles`. Any other failure happened in pass `|done|`, after `done` were rendered, and names that pass's failing step; that pass's disk holds the video and, when its text writes were allowed, its texts. A failure leaves every file in place |
| `GenerateGifRoute.SaveVideo` | src/app/api/generate-gif/route.ts:41-43 | the video is saved exactly when the fetch and the write succeed; otherwise the disk is unchanged and the error names the step |
| `GenerateGifRoute.OutsideStored` | src/app/api/generate-gif/route.ts:49-52 | the text writes change nothing outside the text paths |
| `GenerateGifRoute.RenderOverlays` | src/app/api/generate-gif/route.ts:47-95 | all text files are written exactly when every overlay write is allowed; otherwise the answer is `WriteFailed` of the first refused path. `disk` is the old disk plus the texts written. The outcome is `Ok` exactly when every step succeeds on that disk for the handler's command, and then it is FFmpeg's render of that command; an error names the failing step. Nothing outside the GIF and the text paths changes |
| `GenerateGifRoute.Attempt` | src/app/api/generate-gif/route.ts:40-95 | a failed fetch gives `FetchFailed` and a refused video write `WriteFailed` of the video path, and neither writes a text file. Once the video is saved, the outcome is `Ok` exactly when every later step succeeds on the disk with the video and every overlay's text file, and otherwise names the failing step. On success the GIF was rendered from that disk. Nothing outside the request's scratch paths changes |
| `GenerateGifRoute.Post` | src/app/api/generate-gif/route.ts:20-120 | a GIF answer is `image/gif` with the `generated-{ts}.gif` disposition and carries what FFmpeg rendered for the request. Any failure is a 500 `Failed to generate GIF` whose details name what failed: a malformed body, the fetch, the video write, or (once the video is saved) the failing later step. Once the video is saved, the answer is a GIF exactly when every text write, FFmpeg on the disk with the video and the texts, and the read-back succeed. Afterwards the disk is the old disk less the video, the GIF and every text path written, on success and on failure, with the writes one at a time and every unlink succeeding (see "## Left out") |
| `GenerateGifRoute.SameCommandAsUtility` | src/app/api/generate-gif/route.ts:47-77 | the handler builds the same FFmpeg command as the utility's single render when both use the same folder, timestamp and font |
| `Editor.Kept` | src/app/components/VariableEditor.tsx:414 | a line is dropped exactly when it is blank, and is otherwise kept trimmed and non-empty |
| `Editor.CleanLines` | src/app/components/VariableEditor.tsx:414 | the `map(trim).filter(length > 0)` pipeline yields at most as many lines, each non-empty and trimmed |
| `Editor.CleanLinesConcat` | src/app/components/VariableEditor.tsx:414 | the pipeline works line by line, so the lines keep their relative order |
| `Editor.CleanLine` | src/app/components/VariableEditor.tsx:414 | one line is kept, trimmed, exactly when it is not blank |
| `Editor.CleanLinesOfClean` | src/app/components/VariableEditor.tsx:414 | lines that are already clean come through unchanged |
| `Editor.TrimAvoids` | src/app/components/VariableEditor.tsx:414 | trimming never introduces a character the line did not hold |
| `Editor.ReadLines` | src/app/components/VariableEditor.tsx:409-420 | `readFileContent` yields non-empty lines with no whitespace at either end and no newline |
| `Editor.ReadLinesRoundTrip` | src/app/components/VariableEditor.tsx:412-415 | a file written as clean lines, one per row, reads back as exactly those lines |
| `Editor.ReadLinesStable` | src/app/components/VariableEditor.tsx:413-415 | reading the lines back out of their own join changes nothing |
| `Editor.FileContentsGet` | src/app/components/VariableEditor.tsx:274-277 | `fileContents[key]` is the attached file's lines for each variable with a file, and absent for every other key |
| `Editor.FileContentsEmpty` | src/app/components/VariableEditor.tsx:273-278 | `fileContents` is empty exactly when no variable has a file attached |
| `Editor.CollectFileContents` | src/app/components/VariableEditor.tsx:271-278 | the loop over `variableFiles` builds exactly `FileContents`, so every lookup is characterised and the result is empty exactly when no file is attached |
| `Editor.LooksTakenIff` | src/app/components/VariableEditor.tsx:319-323 | the guard as written refuses a name exactly when it is among `Object.keys(variables)` or is a member every object inherits from `Object.prototype` |
| `Editor.InheritedNameLooksTaken` | src/app/components/VariableEditor.tsx:320 | the guard as written turns down `toString` on a card that has no such variable |
| `Editor.DefaultFontSize` | src/app/components/VariableEditor.tsx:331 | the default size `"68px"` is the numeral 68 followed by `px` |
| `Editor.DefaultFontSizeText` | src/app/components/VariableEditor.tsx:326-335 | a new variable's default size reaches the filter as `fontsize=68` |
| `Editor.ApplyEdit` | src/app/components/VariableEditor.tsx:59-62 | `{...position, [field]: value}` sets the named field and keeps the other four |
| `Editor.VariableEditor.constructor` | src/app/components/VariableEditor.tsx:32-38 | the editor starts with the card's variables, no files attached, an empty name and the dialog closed |
| `Editor.VariableEditor.SingleRequest` | src/app/components/VariableEditor.tsx:232-252 | the single render sends the card's video and the sanitised variables: same keys, and no empty text |
| `Editor.VariableEditor.OpenAddDialog` | src/app/components/VariableEditor.tsx:439 | opens the dialog and changes nothing else |
| `Editor.VariableEditor.SetNewVariableName` | src/app/components/VariableEditor.tsx:607 | records the typed name and changes nothing else |
| `Editor.VariableEditor.CloseAddDialog` | src/app/components/VariableEditor.tsx:351-354 | closes the dialog and clears the name |
| `Editor.VariableEditor.AddVariable` | src/app/components/VariableEditor.tsx:313-349 | adds a variable exactly when the name is not blank and not an own key. The new entry is the name as text at the default position (`45%`, `45%`, `68px`, `#ffffff`, not centred); every other entry is unchanged; the dialog is reset. Otherwise nothing changes |
| `Editor.VariableEditor.DeleteVariable` | src/app/components/VariableEditor.tsx:356-381 | deletes exactly when more than one variable exists, removing the key from the variables and the files; the count never drops below 1 |
| `Editor.VariableEditor.VariableChange` | src/app/components/VariableEditor.tsx:52-66 | only the named key's position changes, only in the edited field; its text, the other keys and their order are unchanged |
| `Editor.VariableEditor.ValueChange` | src/app/components/VariableEditor.tsx:68-79 | only the named key's text changes; its position, the other keys and their order are unchanged |
| `Editor.VariableEditor.ChooseFile` | src/app/components/VariableEditor.tsx:383-407 | a file that is not `text/plain` is refused and `variableFiles` is unchanged; otherwise the choice, a file or none, is recorded for that key alone |
| `Editor.VariableEditor.GenerateAndDownload` | src/app/components/VariableEditor.tsx:210-230 | bulk mode exactly when some variable has a file, sending the raw variables and every file's lines (never empty); otherwise the sanitised single request |

## Left out

- Directory creation (`ensureOutputFolder`, `mkdir`) is left out. The scratch disk is a flat map of paths, so folders do not exist as such.
- `path.join` normalisation is left out. A scratch path is the folder, `/` and the name, with backslashes turned into slashes.
- The concurrency of `Promise.all` is left out. Text files are written one at a time, and the first failing write ends the step. In the program the other writes still run, and `textFilePaths` follows completion order, not entry order.
- Console logging, the `start` event of FFmpeg and the text of `String(error)` are left out. The error a JSON answer carries is the model's `Error` value.
- What FFmpeg renders, and whether the network, writes and reads succeed, are oracles of `Io.Host`. The HTTP status of the video response is not looked at, as in the program.
- `parseFloat` printed back into a template is a parameter (`floatText`), so no float arithmetic is modelled. `parseInt` is modelled on unbounded integers.
- The font location, which comes from `import.meta.url`, is a parameter. So are `Date.now()` and `process.cwd()`.
- Strings are sequences of characters. UTF-16 code units are not modelled.
- JSZip, the `generate-bulk-gif` route and its un-awaited cleanup are not part of this model. The bulk job's result is modelled up to the GIFs and the cleanup list it hands back.
- The editor's rendering, toasts, object URLs, download anchors, the `fetch` calls and the save and upload flow are left out. The maximum-lines toast is left out too. `handleGenerateAndDownload` is modelled up to the body it sends.
- The `FileReader` is left out: a file's text is given, and `reader.onerror` is not modelled.
- Editor.VariableEditor.VariableChange: only the five fields the inputs edit are modelled. A field name outside them cannot be expressed.
- Editor.VariableEditor.ValueChange: for a key the card does not have, the program stores an entry without a position. The model reports the key as absent and changes nothing.
- Ffmpeg.ResolveIteration: an own `__proto__` variable (possible in a JSON-parsed body) is kept in `currentVariables`. In the program `currentVariables[key] = ...` then calls the prototype setter, so that variable gets no text file and is not drawn.
- Ffmpeg.Resolved: keeps an own `__proto__` variable, for the same reason as `Ffmpeg.ResolveIteration`.
- Editor.CollectFileContents: a file attached to a `__proto__` variable is kept in `fileContents`. In the program `fileContents[variableKey] = lines` then sets the prototype, so those lines are never sent.
- GenerateGifRoute.Post: the cleanup is stated under two simplifications. First, the text writes run one at a time. With the real `Promise.all`, a rejected write starts the `catch` and `finally` while other writes are still pending. A write that ends after `finally` has read `textFilePaths` leaves its file behind.
- GenerateGifRoute.Post: second, every unlink removes its path (`Io.Host.Unlink`). In the program a failing unlink, for a reason other than a missing file, is swallowed by `.catch` and its file stays.
- Io.Host.Unlink: always removes the path. An unlink that fails for a reason other than a missing file, and whose error the program swallows, is not modelled.
- Editor.VariableEditor.GenerateAndDownload: the effect of the bulk response is left out, and so are the single render's answer and the download.

The model follows the code as written in these places, even where a comment or a first reading suggests otherwise:

- With no line lists at all, `Math.max()` is `-Infinity`. The bulk loop then runs zero times and returns no GIF; it does not run once (`Ffmpeg.MaxLines`, `Ffmpeg.FFmpegUtils.GenerateBulkGifs`).
- The code comment says the first variable with a line names the file. In fact every such variable overwrites the name, so the last one wins (`Ffmpeg.FilenameLastLineWins`).
- The single and bulk jobs of `FFmpegUtils` hand back no cleanup on their failure paths, so their scratch files stay. Only the `POST /api/generate-gif` handler unlinks its scratch files on failure as well as on success, in its `finally` block (`GenerateGifRoute.Post`, with the limits listed above).
- An empty line in a line list is falsy, so the variable falls back to its own text, sanitised. A line of spaces is truthy and is used as it is. The editor's file reading never produces either.
- The utility is one shared instance, so its timestamp, and with it every scratch path, is the same for every job it runs.

## Findings

| source | as written | input that shows it | evidently intended | confidence | as-written member | corrected member |
|---|---|---|---|---|---|---|
| src/app/components/VariableEditor.tsx:320 | the duplicate check `gif.variables[newVariableName]` is truthy for members every object inherits from `Object.prototype` | a card without a `toString` variable, and the new name `toString` (likewise `constructor`, `valueOf`, `hasOwnProperty`, ...): the dialog says the variable already exists | refuse only names the card already has as its own keys | not executed | `Editor.InheritedNameLooksTaken` | `Editor.VariableEditor.AddVariable` |
