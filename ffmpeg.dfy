/** The render-job planner behind both GIF routes: `FFmpegUtils` renders one GIF from a video
    and a variable map, or one GIF per line of uploaded text files, and hands back the scratch
    paths its cleanup unlinks. */
module Ffmpeg {
  import opened Wrappers
  import opened JsText
  import opened JsObject
  import opened Variables
  import opened Io
  import opened Overlay

  /** The settings an `FFmpegUtils` fixes when it is built. */
  datatype FFmpegConfig = FFmpegConfig(fontPath: string, outputFolder: string, timestamp: nat)

  /** A bulk job's line sources: `{ [variable]: lines }`. */
  type LineSources = JsObject<seq<string>>

  /** A rendered GIF of a bulk job and the name it is downloaded under. */
  datatype NamedGif = NamedGif(filename: string, buffer: FileData)

  /** What `generateSingleGif` resolves to: the GIF, and the paths its cleanup unlinks. */
  datatype SingleGif = SingleGif(gifBuffer: FileData, cleanup: seq<string>)

  /** What `generateBulkGifs` resolves to: the GIFs in iteration order, and the paths its cleanup
      unlinks. */
  datatype BulkGifs = BulkGifs(gifs: seq<NamedGif>, cleanup: seq<string>)

  // ------------------------------------------------------------------ how many GIFs

  /** A JavaScript maximum: `Math.max()` of nothing is `-Infinity`. */
  datatype Extent = NegInfinity | Finite(n: nat)

  /** `Math.max(...Object.values(fileContents).map(lines => lines.length))`. */
  function MaxLines(fileContents: seq<Property<seq<string>>>): (m: Extent)
    ensures m == NegInfinity <==> fileContents == []
  {
    if fileContents == [] then NegInfinity
    else
      var n := |fileContents| - 1;
      match MaxLines(fileContents[..n])
      case NegInfinity => Finite(|fileContents[n].value|)
      case Finite(k) => Finite(if k < |fileContents[n].value| then |fileContents[n].value| else k)
  }

  /** A finite maximum bounds every list and is the length of one of them. */
  lemma {:induction false} MaxLinesIsMaximum(fileContents: seq<Property<seq<string>>>)
    ensures MaxLines(fileContents).Finite? ==>
      (forall j :: 0 <= j < |fileContents| ==> |fileContents[j].value| <= MaxLines(fileContents).n) &&
      (exists j :: 0 <= j < |fileContents| && |fileContents[j].value| == MaxLines(fileContents).n)
  {
    if fileContents != [] {
      var n := |fileContents| - 1;
      var prefix := fileContents[..n];
      MaxLinesIsMaximum(prefix);
      assert forall j :: 0 <= j < n ==> prefix[j] == fileContents[j];
      if MaxLines(prefix).Finite? && |fileContents[n].value| <= MaxLines(prefix).n {
        var j :| 0 <= j < n && |prefix[j].value| == MaxLines(prefix).n;
        assert |fileContents[j].value| == MaxLines(fileContents).n;
      }
    }
  }

  /** How often `for (let i = 0; i < maxLines; i++)` runs: never for `-Infinity`. */
  function IterationCount(m: Extent): nat {
    match m
    case NegInfinity => 0
    case Finite(n) => n
  }

  // ------------------------------------------------------------------ one iteration's variables

  /** `fileContents[key] && fileContents[key][i]`: the line the key's file gives iteration `i`,
      when there is such a line and it is not empty. */
  function LineAt(fileContents: seq<Property<seq<string>>>, key: string, i: nat): Option<string> {
    match Get(fileContents, key)
    case None => None
    case Some(lines) => if i < |lines| && lines[i] != "" then Some(lines[i]) else None
  }

  /** The text a variable shows in iteration `i`: its line, else its own text sanitised. */
  function ResolvedValue(d: VariableData, line: Option<string>): (v: string)
    ensures line.Some? ==> v == line.value
    ensures line.None? ==> v == SanitizeValue(d.value)
  {
    match line
    case Some(l) => l
    case None => SanitizeValue(d.value)
  }

  function ResolvedData(p: Property<VariableData>, fileContents: seq<Property<seq<string>>>, i: nat): VariableData {
    p.value.(value := ResolvedValue(p.value, LineAt(fileContents, p.key, i)))
  }

  /** `currentVariables` of iteration `i`: every variable, in entry order, with its text resolved. */
  function Resolved(variables: seq<Property<VariableData>>, fileContents: seq<Property<seq<string>>>,
                    i: nat): (r: seq<Property<VariableData>>)
    ensures |r| == |variables|
    ensures forall j :: 0 <= j < |r| ==> r[j] == Property(variables[j].key, ResolvedData(variables[j], fileContents, i))
  {
    seq(|variables|, j requires 0 <= j < |variables| =>
      Property(variables[j].key, ResolvedData(variables[j], fileContents, i)))
  }

  function ResolvedVariables(variables: VariableMap, fileContents: seq<Property<seq<string>>>,
                             i: nat): (r: VariableMap)
  {
    assert KeysOf(Resolved(variables, fileContents, i)) == KeysOf(variables);
    Resolved(variables, fileContents, i)
  }

  /** Iteration `i` keeps every variable and its position, takes a variable's line where its file
      has a non-empty one, and otherwise shows the variable's own text, `" "` when blank. */
  lemma ResolvedVariablesSpec(variables: VariableMap, fileContents: seq<Property<seq<string>>>, i: nat)
    ensures var r := ResolvedVariables(variables, fileContents, i);
      && KeysOf(r) == KeysOf(variables)
      && (forall j :: 0 <= j < |r| ==> r[j].value.position == variables[j].value.position)
      && (forall j :: 0 <= j < |r| ==> match LineAt(fileContents, variables[j].key, i)
           case Some(line) => r[j].value.value == line
           case None => r[j].value.value == SanitizeValue(variables[j].value.value))
  {
  }

  // ------------------------------------------------------------------ file names

  /** `[a-zA-Z0-9\-_]`. */
  predicate IsFilenameSafe(c: char) {
    ('a' <= c <= 'z') || ('A' <= c <= 'Z') || ('0' <= c <= '9') || c == '-' || c == '_'
  }

  predicate AllFilenameSafe(s: string) {
    forall j :: 0 <= j < |s| ==> IsFilenameSafe(s[j])
  }

  /** `s.replace(/[^a-zA-Z0-9\-_]/g, '_')`. */
  function SanitizeFilename(s: string): (r: string)
    ensures |r| == |s| && AllFilenameSafe(r)
  {
    seq(|s|, j requires 0 <= j < |s| => if IsFilenameSafe(s[j]) then s[j] else '_')
  }

  /** A safe name is left alone, and only a safe name is. */
  lemma SanitizeFilenameFixes(s: string)
    ensures SanitizeFilename(s) == s <==> AllFilenameSafe(s)
  {
    if AllFilenameSafe(s) {
      assert forall j :: 0 <= j < |s| ==> SanitizeFilename(s)[j] == s[j];
    }
  }

  lemma SanitizeFilenameIdempotent(s: string)
    ensures SanitizeFilename(SanitizeFilename(s)) == SanitizeFilename(s)
  {
    SanitizeFilenameFixes(SanitizeFilename(s));
  }

  /** Only the unsafe characters change, each to `_`. */
  lemma SanitizeFilenameChanges(s: string, j: nat)
    requires j < |s|
    ensures SanitizeFilename(s)[j] != s[j] <==> !IsFilenameSafe(s[j])
    ensures SanitizeFilename(s)[j] != s[j] ==> SanitizeFilename(s)[j] == '_'
  {
  }

  /** `${gifName}_${i + 1}`. */
  function DefaultFilename(gifName: string, i: nat): string {
    gifName + "_" + NatText(i + 1)
  }

  /** `filenameValue` after the variables are walked: every variable with a line overwrites it
      with its sanitised line, so the last such variable in entry order names the file. */
  function FilenameBase(variables: seq<Property<VariableData>>, fileContents: seq<Property<seq<string>>>,
                        gifName: string, i: nat): string
  {
    if variables == [] then DefaultFilename(gifName, i)
    else
      var n := |variables| - 1;
      match LineAt(fileContents, variables[n].key, i)
      case Some(line) => SanitizeFilename(line)
      case None => FilenameBase(variables[..n], fileContents, gifName, i)
  }

  /** The file is named by the last variable that has a line in iteration `i`. */
  lemma {:induction false} FilenameLastLineWins(variables: seq<Property<VariableData>>,
                                                fileContents: seq<Property<seq<string>>>,
                                                gifName: string, i: nat, j: nat)
    requires j < |variables| && LineAt(fileContents, variables[j].key, i).Some?
    requires forall k :: j < k < |variables| ==> LineAt(fileContents, variables[k].key, i).None?
    ensures FilenameBase(variables, fileContents, gifName, i)
         == SanitizeFilename(LineAt(fileContents, variables[j].key, i).value)
  {
    var n := |variables| - 1;
    if j < n {
      var prefix := variables[..n];
      assert forall k :: j < k < n ==> prefix[k] == variables[k];
      FilenameLastLineWins(prefix, fileContents, gifName, i, j);
    }
  }

  /** Without any line in iteration `i`, the file is named `{gifName}_{i + 1}`. */
  lemma {:induction false} FilenameWithoutLines(variables: seq<Property<VariableData>>,
                                                fileContents: seq<Property<seq<string>>>,
                                                gifName: string, i: nat)
    requires forall k :: 0 <= k < |variables| ==> LineAt(fileContents, variables[k].key, i).None?
    ensures FilenameBase(variables, fileContents, gifName, i) == DefaultFilename(gifName, i)
  {
    if variables != [] {
      var n := |variables| - 1;
      var prefix := variables[..n];
      assert forall k :: 0 <= k < n ==> prefix[k] == variables[k];
      FilenameWithoutLines(prefix, fileContents, gifName, i);
    }
  }

  /** The variables of the first `count` bulk iterations, in order. */
  function IterationVariables(variables: seq<Property<VariableData>>, fileContents: seq<Property<seq<string>>>,
                              count: nat): (r: seq<seq<Property<VariableData>>>)
    ensures |r| == count && forall k :: 0 <= k < count ==> r[k] == Resolved(variables, fileContents, k)
  {
    seq(count, k requires 0 <= k < count => Resolved(variables, fileContents, k))
  }

  lemma IterationVariablesStep(variables: seq<Property<VariableData>>, fileContents: seq<Property<seq<string>>>,
                               count: nat)
    ensures IterationVariables(variables, fileContents, count + 1)
         == IterationVariables(variables, fileContents, count) + [Resolved(variables, fileContents, count)]
  {
    Extend(IterationVariables(variables, fileContents, count + 1), IterationVariables(variables, fileContents, count),
           Resolved(variables, fileContents, count));
  }

  /** The download name of bulk iteration `i`. */
  function GifFilename(variables: seq<Property<VariableData>>, fileContents: seq<Property<seq<string>>>,
                       gifName: string, i: nat): (r: string)
    ensures |r| >= 4 && r[|r| - 4..] == ".gif"
  {
    FilenameBase(variables, fileContents, gifName, i) + ".gif"
  }

  /** The download names of the first `count` bulk iterations, in order. */
  function GifFilenames(variables: seq<Property<VariableData>>, fileContents: seq<Property<seq<string>>>,
                        gifName: string, count: nat): (r: seq<string>)
    ensures |r| == count && forall k :: 0 <= k < count ==> r[k] == GifFilename(variables, fileContents, gifName, k)
  {
    seq(count, k requires 0 <= k < count => GifFilename(variables, fileContents, gifName, k))
  }

  lemma GifFilenamesStep(variables: seq<Property<VariableData>>, fileContents: seq<Property<seq<string>>>,
                         gifName: string, count: nat)
    ensures GifFilenames(variables, fileContents, gifName, count + 1)
         == GifFilenames(variables, fileContents, gifName, count) + [GifFilename(variables, fileContents, gifName, count)]
  {
  }

  function FilenamesOf(gifs: seq<NamedGif>): (r: seq<string>)
    ensures |r| == |gifs| && forall k :: 0 <= k < |gifs| ==> r[k] == gifs[k].filename
  {
    seq(|gifs|, k requires 0 <= k < |gifs| => gifs[k].filename)
  }

  lemma FilenamesOfStep(gifs: seq<NamedGif>, gif: NamedGif)
    ensures FilenamesOf(gifs + [gif]) == FilenamesOf(gifs) + [gif.filename]
  {
  }

  /** The walk over `Object.entries(variables)` of one iteration (the `forEach` of the bulk
      loop): builds `currentVariables` key by key and overwrites `filenameValue` whenever a
      variable has a line. */
  method ResolveIteration(variables: VariableMap, fileContents: LineSources, gifName: string, i: nat)
    returns (current: VariableMap, filenameValue: string)
    ensures current == ResolvedVariables(variables, fileContents, i)
    ensures filenameValue == FilenameBase(variables, fileContents, gifName, i)
  {
    current := [];
    filenameValue := DefaultFilename(gifName, i);
    var j := 0;
    while j < |variables|
      invariant 0 <= j <= |variables|
      invariant current == Resolved(variables[..j], fileContents, i)
      invariant filenameValue == FilenameBase(variables[..j], fileContents, gifName, i)
    {
      var key, data := variables[j].key, variables[j].value;
      ResolveStep(variables, fileContents, gifName, i, j, current);
      var value := if IsBlank(data.value) then " " else data.value;
      var fileContent := Get(fileContents, key);
      if fileContent.Some? && i < |fileContent.value| && fileContent.value[i] != "" {
        value := fileContent.value[i];
        filenameValue := SanitizeFilename(value);
      }
      assert data.(value := value) == ResolvedData(variables[j], fileContents, i);
      current := Put(current, key, data.(value := value));
      j := j + 1;
    }
    PrefixAll(variables);
  }

  /** One step of the walk: the next entry may be appended, and the walk's results grow by it. */
  lemma ResolveStep(variables: VariableMap, fileContents: LineSources, gifName: string, i: nat, j: nat,
                    current: VariableMap)
    requires j < |variables| && current == Resolved(variables[..j], fileContents, i)
    ensures forall k :: 0 <= k < |current| ==> CanFollow(current[k].key, variables[j].key)
    ensures Resolved(variables[..j + 1], fileContents, i)
         == current + [Property(variables[j].key, ResolvedData(variables[j], fileContents, i))]
    ensures FilenameBase(variables[..j + 1], fileContents, gifName, i)
         == match LineAt(fileContents, variables[j].key, i)
            case Some(line) => SanitizeFilename(line)
            case None => FilenameBase(variables[..j], fileContents, gifName, i)
  {
    PrefixStep(variables, j);
    forall k | 0 <= k < |current| ensures CanFollow(current[k].key, variables[j].key) {
      assert current[k].key == variables[k].key;
      assert KeysOf(variables)[k] == variables[k].key && KeysOf(variables)[j] == variables[j].key;
    }
  }

  // ------------------------------------------------------------------ scratch files of a bulk job

  /** The per-job utility object: its configuration, including the timestamp that names every
      scratch file, is fixed when it is built. */
  class FFmpegUtils {
    const config: FFmpegConfig
    /** `parseFloat` printed back into a template. */
    const floatText: string -> string

    /** `new FFmpegUtils()`: `joinedFontPath` is where the font file lies and `now` is
        `Date.now()` at construction; scratch files go to `/tmp`. */
    constructor(joinedFontPath: string, now: nat, floatText: string -> string)
      ensures config == FFmpegConfig(FontPathFor(joinedFontPath), "/tmp", now)
      ensures this.floatText == floatText
    {
      config := FFmpegConfig(FontPathFor(joinedFontPath), "/tmp", now);
      this.floatText := floatText;
    }

    function VideoPath(): string {
      ScratchPath(config.outputFolder, InputVideoName(config.timestamp))
    }

    function OutputPath(iteration: Option<nat>): string {
      ScratchPath(config.outputFolder, OutputGifName(config.timestamp, iteration))
    }

    /** The scratch files of bulk iteration `k` with `n` variables: the GIF, then the texts. */
    function IterationFiles(k: nat, n: nat): (r: seq<string>)
      ensures |r| == n + 1 && r[0] == OutputPath(Some(k))
      ensures forall a :: 0 <= a <= n ==> r[a] == ScratchPath(config.outputFolder, IterationName(config.timestamp, k, a))
    {
      var r := [OutputPath(Some(k))] + TextPaths(config.outputFolder, config.timestamp, Some(k), n);
      assert forall a :: 1 <= a <= n ==> r[a] == TextPath(config.outputFolder, config.timestamp, Some(k), a - 1);
      r
    }

    /** `tempFiles` after `count` iterations. */
    function TempFiles(n: nat, count: nat): seq<string>
    {
      if count == 0 then [] else TempFiles(n, count - 1) + IterationFiles(count - 1, n)
    }

    /** Files of different iterations, or different files of one iteration, never share a path. */
    lemma IterationFilesInjective(k: nat, k': nat, n: nat, a: nat, b: nat)
      requires a <= n && b <= n
      ensures IterationFiles(k, n)[a] == IterationFiles(k', n)[b] ==> k == k' && a == b
    {
      var ts := config.timestamp;
      IterationNameInjective(ts, k, a, k', b);
      IterationNamePlain(ts, k, a);
      IterationNamePlain(ts, k', b);
      ScratchPathInjective(config.outputFolder, IterationName(ts, k, a), IterationName(ts, k', b));
    }

    /** Every entry of `tempFiles` belongs to one of the iterations run so far. */
    lemma {:induction false} TempFilesOrigin(n: nat, count: nat, p: string)
      requires p in TempFiles(n, count)
      ensures exists k, a :: 0 <= k < count && 0 <= a <= n && p == IterationFiles(k, n)[a]
    {
      if p !in IterationFiles(count - 1, n) {
        TempFilesOrigin(n, count - 1, p);
      } else {
        var a :| 0 <= a < |IterationFiles(count - 1, n)| && IterationFiles(count - 1, n)[a] == p;
      }
    }

    /** `tempFiles` names every scratch file of the iterations once. */
    lemma {:induction false} TempFilesDistinct(n: nat, count: nat)
      ensures Distinct(TempFiles(n, count))
    {
      if count > 0 {
        var k := count - 1;
        var files := IterationFiles(k, n);
        TempFilesDistinct(n, k);
        forall a, b | 0 <= a < b < |files| ensures files[a] != files[b] {
          IterationFilesInjective(k, k, n, a, b);
        }
        forall p | p in TempFiles(n, k) ensures p !in files {
          TempFilesOrigin(n, k, p);
          var k', a :| 0 <= k' < k && 0 <= a <= n && p == IterationFiles(k', n)[a];
          forall b | 0 <= b < |files| ensures files[b] != p {
            IterationFilesInjective(k', k, n, a, b);
          }
        }
        DistinctConcat(TempFiles(n, k), files);
      }
    }

    /** The cleanup list of a bulk job names every scratch file once: the video, then each
        iteration's GIF and text files. */
    lemma CleanupListDistinct(n: nat, count: nat)
      ensures Distinct([VideoPath()] + TempFiles(n, count))
    {
      var folder, ts := config.outputFolder, config.timestamp;
      TempFilesDistinct(n, count);
      forall p | p in TempFiles(n, count) ensures p != VideoPath() {
        TempFilesOrigin(n, count, p);
        var k, a :| 0 <= k < count && 0 <= a <= n && p == IterationFiles(k, n)[a];
        IterationNamePlain(ts, k, a);
        ScratchPathInjective(folder, InputVideoName(ts), IterationName(ts, k, a));
      }
      DistinctConcat([VideoPath()], TempFiles(n, count));
    }

    /** `after` differs from `before` at most at the scratch files of bulk iteration `k`. */
    ghost predicate OnlyIterationChanged(before: map<string, FileData>, after: map<string, FileData>, k: nat, n: nat) {
      forall p :: p !in IterationFiles(k, n) ==> Agree(after, before, p)
    }

    /** `disk` holds `texts[j]` at text path `j` of bulk iteration `k`, for every `j`. */
    predicate HoldsTexts(disk: map<string, FileData>, k: nat, texts: seq<string>) {
      forall j :: 0 <= j < |texts| ==>
        TextPath(config.outputFolder, config.timestamp, Some(k), j) in disk &&
        disk[TextPath(config.outputFolder, config.timestamp, Some(k), j)] == TextFile(texts[j])
    }

    /** `gif` is FFmpeg's render of bulk iteration `k`'s command for `current` on `disk`, which
        holds that iteration's texts and the video `files0` holds. */
    predicate RenderedAt(host: Host, gif: NamedGif, current: seq<Property<VariableData>>,
                         disk: map<string, FileData>, k: nat, files0: map<string, FileData>)
    {
      && host.Renders(disk, RenderCommand(current, Some(k)), gif.buffer)
      && HoldsTexts(disk, k, TextsOf(current))
      && Agree(disk, files0, VideoPath())
    }

    /** Every bulk GIF `k` is rendered from `rendered[k]` on `disks[k]`. */
    predicate RenderedFrom(host: Host, gifs: seq<NamedGif>, rendered: seq<seq<Property<VariableData>>>,
                           disks: seq<map<string, FileData>>, files0: map<string, FileData>)
    {
      && |rendered| == |gifs| && |disks| == |gifs|
      && forall k :: 0 <= k < |gifs| ==> RenderedAt(host, gifs[k], rendered[k], disks[k], k, files0)
    }

    /** Bulk GIF `k` is what `files` holds at `output-{ts}-{k}.gif`. */
    predicate GifsOnDisk(files: map<string, FileData>, gifs: seq<NamedGif>) {
      forall k :: 0 <= k < |gifs| ==> OutputPath(Some(k)) in files && files[OutputPath(Some(k))] == gifs[k].buffer
    }

    lemma RenderedFromStep(host: Host, gifs: seq<NamedGif>, rendered: seq<seq<Property<VariableData>>>,
                           disks: seq<map<string, FileData>>, files0: map<string, FileData>,
                           gif: NamedGif, current: seq<Property<VariableData>>, disk: map<string, FileData>)
      requires RenderedFrom(host, gifs, rendered, disks, files0)
      requires RenderedAt(host, gif, current, disk, |gifs|, files0)
      ensures RenderedFrom(host, gifs + [gif], rendered + [current], disks + [disk], files0)
    {
      var gifs', rendered', disks' := gifs + [gif], rendered + [current], disks + [disk];
      forall k | 0 <= k < |gifs'| ensures RenderedAt(host, gifs'[k], rendered'[k], disks'[k], k, files0) {
        if k < |gifs| {
          RenderedAtSame(host, gifs[k], gifs'[k], rendered[k], rendered'[k], disks[k], disks'[k], k, files0);
        } else {
          RenderedAtSame(host, gif, gifs'[k], current, rendered'[k], disk, disks'[k], k, files0);
        }
      }
    }

    lemma RenderedAtSame(host: Host, gif: NamedGif, gif': NamedGif, current: seq<Property<VariableData>>,
                         current': seq<Property<VariableData>>, disk: map<string, FileData>,
                         disk': map<string, FileData>, k: nat, files0: map<string, FileData>)
      requires RenderedAt(host, gif, current, disk, k, files0)
      requires gif' == gif && current' == current && disk' == disk
      ensures RenderedAt(host, gif', current', disk', k, files0)
    {
    }

    /** An iteration that writes only its own scratch files keeps the earlier GIFs on disk. */
    lemma GifsOnDiskStep(before: map<string, FileData>, after: map<string, FileData>, gifs: seq<NamedGif>,
                         gif: NamedGif, n: nat)
      requires GifsOnDisk(before, gifs) && OnlyIterationChanged(before, after, |gifs|, n)
      requires OutputPath(Some(|gifs|)) in after && after[OutputPath(Some(|gifs|))] == gif.buffer
      ensures GifsOnDisk(after, gifs + [gif])
    {
      var gifs' := gifs + [gif];
      forall k | 0 <= k < |gifs'|
        ensures OutputPath(Some(k)) in after && after[OutputPath(Some(k))] == gifs'[k].buffer
      {
        if k < |gifs| {
          OutputNotOtherIterationFile(k, |gifs|, n);
          AgreeOutside(before, after, |gifs|, n, OutputPath(Some(k)));
          assert OutputPath(Some(k)) in before && before[OutputPath(Some(k))] == gifs[k].buffer;
          assert gifs'[k] == gifs[k];
        }
      }
    }

    lemma AgreeOutside(before: map<string, FileData>, after: map<string, FileData>, k: nat, n: nat, p: string)
      requires OnlyIterationChanged(before, after, k, n) && p !in IterationFiles(k, n)
      ensures Agree(after, before, p)
    {
    }

    /** The writes of this job's first `n` overlay files of `iteration` are all allowed. */
    predicate OverlayWritesAllowed(host: Host, iteration: Option<nat>, n: nat) {
      WritesAllowed(host, config.outputFolder, config.timestamp, iteration, n)
    }

    /** Every step of rendering `variables` in `iteration` after the download succeeds, with
        FFmpeg running this job's command on `disk`. */
    predicate StepsSucceed(host: Host, iteration: Option<nat>, variables: seq<Property<VariableData>>,
                           disk: map<string, FileData>) {
      RenderSucceeds(host, config.outputFolder, config.timestamp, iteration, |variables|, disk,
                     RenderCommand(variables, iteration))
    }

    /** `e` names the step of rendering `variables` in `iteration` that failed. */
    predicate StepFailed(host: Host, e: Error, iteration: Option<nat>, variables: seq<Property<VariableData>>,
                         disk: map<string, FileData>) {
      RenderFailure(host, e, config.outputFolder, config.timestamp, iteration, |variables|, disk,
                    RenderCommand(variables, iteration))
    }

    /** Bulk iterations `0 .. m - 1` had every step succeed. */
    predicate StepsSucceedUpTo(host: Host, rendered: seq<seq<Property<VariableData>>>,
                               disks: seq<map<string, FileData>>, m: nat) {
      && m <= |rendered| && m <= |disks|
      && forall k :: 0 <= k < m ==> StepsSucceed(host, Some(k), rendered[k], disks[k])
    }

    /** Every overlay write and every read of a GIF of bulk iterations `0 .. m - 1`, with `n`
        variables each, was allowed. */
    predicate BulkIoAllowed(host: Host, m: nat, n: nat) {
      forall k :: 0 <= k < m ==>
        OverlayWritesAllowed(host, Some(k), n) && host.readOk(OutputPath(Some(k)))
    }

    lemma BulkIoAllowedStep(host: Host, m: nat, n: nat)
      requires BulkIoAllowed(host, m, n)
      requires OverlayWritesAllowed(host, Some(m), n) && host.readOk(OutputPath(Some(m)))
      ensures BulkIoAllowed(host, m + 1, n)
    {
      forall k | 0 <= k < m + 1
        ensures OverlayWritesAllowed(host, Some(k), n) && host.readOk(OutputPath(Some(k)))
      {
      }
    }

    /** Rendered bulk GIFs whose writes and reads were allowed had every step succeed, whatever
        iterations follow them in `rendered'` and `disks'`. */
    lemma RenderedFromSucceeds(host: Host, gifs: seq<NamedGif>, rendered: seq<seq<Property<VariableData>>>,
                               disks: seq<map<string, FileData>>, files0: map<string, FileData>, n: nat,
                               rendered': seq<seq<Property<VariableData>>>, disks': seq<map<string, FileData>>)
      requires RenderedFrom(host, gifs, rendered, disks, files0) && BulkIoAllowed(host, |gifs|, n)
      requires forall k :: 0 <= k < |rendered| ==> |rendered[k]| == n
      requires rendered <= rendered' && disks <= disks'
      ensures StepsSucceedUpTo(host, rendered', disks', |gifs|)
    {
      forall k | 0 <= k < |gifs| ensures StepsSucceed(host, Some(k), rendered'[k], disks'[k]) {
        assert rendered'[k] == rendered[k] && disks'[k] == disks[k];
        assert RenderedAt(host, gifs[k], rendered[k], disks[k], k, files0);
        assert OverlayWritesAllowed(host, Some(k), n);
      }
    }

    /** Bulk iterations `0 .. |done| - 1` rendered `done` from `rendered` on `disks` with every
        write and read allowed, and iteration `|done|` failed with `e` rendering `failed` on
        `failedDisk`, which held the video of `files0`. */
    predicate FailedAfter(host: Host, e: Error, done: seq<NamedGif>, rendered: seq<seq<Property<VariableData>>>,
                          disks: seq<map<string, FileData>>, failed: seq<Property<VariableData>>,
                          failedDisk: map<string, FileData>, files0: map<string, FileData>, n: nat) {
      && RenderedFrom(host, done, rendered, disks, files0)
      && BulkIoAllowed(host, |done|, n)
      && StepFailed(host, e, Some(|done|), failed, failedDisk)
      && Agree(failedDisk, files0, VideoPath())
      && (OverlayWritesAllowed(host, Some(|done|), n) ==> HoldsTexts(failedDisk, |done|, TextsOf(failed)))
    }

    /** After a failed bulk iteration, every earlier one had every step succeed and the failed
        one did not. */
    lemma FailedAfterSucceeds(host: Host, e: Error, done: seq<NamedGif>, rendered: seq<seq<Property<VariableData>>>,
                              disks: seq<map<string, FileData>>, failed: seq<Property<VariableData>>,
                              failedDisk: map<string, FileData>, files0: map<string, FileData>, n: nat)
      requires FailedAfter(host, e, done, rendered, disks, failed, failedDisk, files0, n)
      requires forall k :: 0 <= k < |rendered| ==> |rendered[k]| == n
      ensures StepsSucceedUpTo(host, rendered, disks, |done|)
      ensures !StepsSucceed(host, Some(|done|), failed, failedDisk)
    {
      RenderedFromSucceeds(host, done, rendered, disks, files0, n, rendered, disks);
      RenderFailureExclusive(host, e, e, config.outputFolder, config.timestamp, Some(|done|), |failed|,
                             failedDisk, RenderCommand(failed, Some(|done|)));
    }

    /** The video is not a scratch file of any iteration. */
    lemma VideoNotIterationFile(k: nat, n: nat)
      ensures VideoPath() !in IterationFiles(k, n)
    {
      var folder, ts := config.outputFolder, config.timestamp;
      forall a | 0 <= a <= n ensures IterationFiles(k, n)[a] != VideoPath() {
        IterationNamePlain(ts, k, a);
        ScratchPathInjective(folder, InputVideoName(ts), IterationName(ts, k, a));
      }
    }

    /** The GIF of iteration `k` is not a scratch file of any other iteration. */
    lemma OutputNotOtherIterationFile(k: nat, i: nat, n: nat)
      requires k != i
      ensures OutputPath(Some(k)) !in IterationFiles(i, n)
    {
      forall b | 0 <= b <= n ensures IterationFiles(i, n)[b] != OutputPath(Some(k)) {
        IterationFilesInjective(k, i, n, 0, b);
      }
    }

    /** The text paths of the first `m <= n` overlays of iteration `k` are scratch files of it. */
    lemma TextPathsAreIterationFiles(k: nat, n: nat, m: nat)
      requires m <= n
      ensures forall p :: p in TextPaths(config.outputFolder, config.timestamp, Some(k), m) ==> p in IterationFiles(k, n)
    {
      var paths := TextPaths(config.outputFolder, config.timestamp, Some(k), m);
      forall p | p in paths ensures p in IterationFiles(k, n) {
        var j :| 0 <= j < m && paths[j] == p;
        assert IterationFiles(k, n)[j + 1] == p;
      }
    }

    /** Writing texts to scratch files of iteration `k` changes nothing else. */
    lemma StoredFrame(files: map<string, FileData>, paths: seq<string>, texts: seq<string>, k: nat, n: nat)
      requires |paths| <= |texts|
      requires forall p :: p in paths ==> p in IterationFiles(k, n)
      ensures OnlyIterationChanged(files, Stored(files, paths, texts), k, n)
    {
      forall p | p !in IterationFiles(k, n) ensures Agree(Stored(files, paths, texts), files, p) {
        StoredElsewhere(files, paths, texts, p);
      }
    }

    /** The command that renders `variables` for one iteration (or the single render). */
    function RenderCommand(variables: seq<Property<VariableData>>, iteration: Option<nat>): FfmpegCommand {
      var paths := TextPaths(config.outputFolder, config.timestamp, iteration, |variables|);
      GifCommand(VideoPath(), FilterComplex(paths, ValuesOf(variables), config.fontPath, floatText),
                 OutputPath(iteration))
    }

    /** Whether `downloadVideo` gets the video onto the disk. */
    predicate DownloadSucceeds(host: Host, videoUrl: string) {
      host.network(videoUrl).Some? && host.writeOk(VideoPath())
    }

    /** `downloadVideo`: fetches the video and saves it as `input-{ts}.mp4`, whose path the
        cleanup it hands back unlinks. */
    method DownloadVideo(host: Host, videoUrl: string) returns (r: Result<string, Error>)
      modifies host
      ensures DownloadSucceeds(host, videoUrl) ==>
        r == Ok(VideoPath()) && host.files == old(host.files)[VideoPath() := BinaryFile(host.network(videoUrl).value)]
      ensures host.network(videoUrl).None? ==> r == Err(FetchFailed(videoUrl)) && host.files == old(host.files)
      ensures host.network(videoUrl).Some? && !host.writeOk(VideoPath()) ==>
        r == Err(WriteFailed(VideoPath())) && host.files == old(host.files)
      ensures forall p :: p in host.files <==> p in old(host.files) || (r.Ok? && p == VideoPath())
    {
      var body := host.Fetch(videoUrl);
      if body.Err? {
        return Err(body.error);
      }
      var path := VideoPath();
      var written := host.WriteFile(path, BinaryFile(body.value));
      if !written {
        return Err(WriteFailed(path));
      }
      r := Ok(path);
    }

    /** `createTextFilesAndFilters(variables, iteration)`: the overlay files of this job's
        folder and timestamp, and the filter drawing them with this job's font. */
    method CreateTextFilesAndFilters(host: Host, variables: VariableMap, iteration: Option<nat>)
      returns (ok: bool, filterComplex: string, textFilePaths: seq<string>)
      modifies host
      ensures textFilePaths == TextPaths(config.outputFolder, config.timestamp, iteration, |textFilePaths|)
      ensures ok ==> |textFilePaths| == |variables|
      ensures !ok ==> |textFilePaths| < |variables| &&
                      !host.writeOk(TextPath(config.outputFolder, config.timestamp, iteration, |textFilePaths|))
      ensures ok ==> filterComplex == FilterComplex(textFilePaths, ValuesOf(variables), config.fontPath, floatText)
      ensures host.files == Stored(old(host.files), textFilePaths, TextsOf(variables))
      ensures forall p :: p in host.files <==> p in old(host.files) || p in textFilePaths
      ensures ok <==> OverlayWritesAllowed(host, iteration, |variables|)
      ensures !ok ==> FirstRefused(host, config.outputFolder, config.timestamp, iteration, |variables|,
                                   TextPath(config.outputFolder, config.timestamp, iteration, |textFilePaths|))
    {
      ok, filterComplex, textFilePaths :=
        WriteOverlays(host, config.outputFolder, config.timestamp, iteration, config.fontPath, floatText, variables);
    }

    /** `generateGif`: runs the GIF command to completion, failing when FFmpeg reports an error. */
    method GenerateGif(host: Host, videoPath: string, filterComplex: string, outputPath: string)
      returns (ok: bool)
      modifies host
      ensures var command := GifCommand(videoPath, filterComplex, outputPath);
        && ok == host.ffmpeg(old(host.files), command).Some?
        && host.files == if ok then old(host.files)[outputPath := BinaryFile(host.ffmpeg(old(host.files), command).value)]
                         else old(host.files)
      ensures forall p :: p in host.files <==> p in old(host.files) || (ok && p == outputPath)
    {
      ok := host.RunFfmpeg(GifCommand(videoPath, filterComplex, outputPath));
    }

    /** What `generateSingleGif` and every pass of `generateBulkGifs` do once the video is on
        disk: write the overlay files, render the GIF of `iteration` and read it back. `disk` is
        the disk after the writes, the one FFmpeg runs on; the outcome is success exactly when
        every step succeeds, and an error names the step that failed. */
    method RenderOverlaid(host: Host, variables: VariableMap, iteration: Option<nat>)
      returns (r: Result<FileData, Error>, textFilePaths: seq<string>, ghost disk: map<string, FileData>)
      modifies host
      ensures textFilePaths == TextPaths(config.outputFolder, config.timestamp, iteration, |textFilePaths|)
      ensures |textFilePaths| <= |variables|
      ensures OverlayWritesAllowed(host, iteration, |variables|) <==> |textFilePaths| == |variables|
      ensures disk == Stored(old(host.files), textFilePaths, TextsOf(variables))
      ensures r.Ok? <==> StepsSucceed(host, iteration, variables, disk)
      ensures r.Err? ==> StepFailed(host, r.error, iteration, variables, disk)
      ensures r.Ok? ==> host.Renders(disk, RenderCommand(variables, iteration), r.value)
      ensures r.Ok? ==> OutputPath(iteration) in host.files && host.files[OutputPath(iteration)] == r.value
      ensures host.files - {OutputPath(iteration)} == disk - {OutputPath(iteration)}
      ensures forall p :: p in host.files ==> p in disk || p == OutputPath(iteration)
      ensures forall p :: p in disk ==> p in host.files
      ensures forall p :: p in disk <==> p in old(host.files) || p in textFilePaths
    {
      var ok, filterComplex;
      ok, filterComplex, textFilePaths := CreateTextFilesAndFilters(host, variables, iteration);
      disk := host.files;
      if !ok {
        r := Err(WriteFailed(TextPath(config.outputFolder, config.timestamp, iteration, |textFilePaths|)));
      } else {
        var outputGifPath := OutputPath(iteration);
        assert GifCommand(VideoPath(), filterComplex, outputGifPath) == RenderCommand(variables, iteration);
        var rendered := GenerateGif(host, VideoPath(), filterComplex, outputGifPath);
        if !rendered {
          r := Err(RenderFailed(outputGifPath));
        } else {
          WrittenOutside(disk, outputGifPath, host.files[outputGifPath]);
          r := host.ReadFile(outputGifPath);
        }
      }
    }

    /** `generateSingleGif`: download, overlay files, render, read back. On success the GIF is
        what FFmpeg wrote for the job's own command, and the cleanup list holds exactly the
        scratch files the job added; a failure leaves every scratch file where it is. */
    method GenerateSingleGif(host: Host, videoUrl: string, variables: VariableMap)
      returns (r: Result<SingleGif, Error>, ghost disk: map<string, FileData>)
      modifies host
      ensures r.Ok? ==> DownloadSucceeds(host, videoUrl) && disk == Stored(old(host.files)[VideoPath() := BinaryFile(host.network(videoUrl).value)],
                                       TextPaths(config.outputFolder, config.timestamp, None, |variables|),
                                       TextsOf(variables))
      ensures r.Ok? ==> host.Renders(disk, RenderCommand(variables, None), r.value.gifBuffer)
      ensures r.Ok? ==> OutputPath(None) in host.files && r.value.gifBuffer == host.files[OutputPath(None)]
      ensures r.Ok? ==> (r.value.cleanup ==
        [VideoPath(), OutputPath(None)] + TextPaths(config.outputFolder, config.timestamp, None, |variables|))
      ensures r.Ok? ==> forall p :: p in host.files <==> p in old(host.files) || p in r.value.cleanup
      ensures r.Err? ==> forall p :: p in old(host.files) ==> p in host.files
      ensures r.Err? && !DownloadSucceeds(host, videoUrl) ==> host.files == old(host.files)
      ensures host.network(videoUrl).None? ==> r == Err(FetchFailed(videoUrl))
      ensures host.network(videoUrl).Some? && !host.writeOk(VideoPath()) ==> r == Err(WriteFailed(VideoPath()))
      ensures DownloadSucceeds(host, videoUrl) && OverlayWritesAllowed(host, None, |variables|) ==>
        disk == Stored(old(host.files)[VideoPath() := BinaryFile(host.network(videoUrl).value)],
                       TextPaths(config.outputFolder, config.timestamp, None, |variables|), TextsOf(variables))
      ensures DownloadSucceeds(host, videoUrl) ==> (r.Ok? <==> StepsSucceed(host, None, variables, disk))
      ensures DownloadSucceeds(host, videoUrl) && r.Err? ==> StepFailed(host, r.error, None, variables, disk)
    {
      disk := host.files;
      var download := DownloadVideo(host, videoUrl);
      if download.Err? {
        r := Err(download.error);
      } else {
        var videoPath := download.value;
        var outputGifPath := OutputPath(None);
        var gifBuffer, textFilePaths;
        gifBuffer, textFilePaths, disk := RenderOverlaid(host, variables, None);
        if gifBuffer.Err? {
          r := Err(gifBuffer.error);
        } else {
          var cleanup := [videoPath, outputGifPath] + textFilePaths;
          InPairThen(videoPath, outputGifPath, textFilePaths);
          r := Ok(SingleGif(gifBuffer.value, cleanup));
        }
      }
    }

    /** One pass of the bulk loop: resolve iteration `i`'s variables and file name, write their
        texts, render `output-{ts}-{i}.gif` and read it back. */
    method RenderIteration(host: Host, variables: VariableMap, fileContents: LineSources,
                           gifName: string, i: nat)
      returns (r: Result<NamedGif, Error>, textFilePaths: seq<string>,
               ghost current: seq<Property<VariableData>>, ghost disk: map<string, FileData>)
      modifies host
      ensures current == Resolved(variables, fileContents, i)
      ensures OverlayWritesAllowed(host, Some(i), |variables|) ==>
        && disk == Stored(old(host.files), TextPaths(config.outputFolder, config.timestamp, Some(i), |variables|),
                          TextsOf(current))
        && HoldsTexts(disk, i, TextsOf(current))
      ensures Agree(disk, old(host.files), VideoPath())
      ensures r.Ok? <==> StepsSucceed(host, Some(i), current, disk)
      ensures r.Err? ==> StepFailed(host, r.error, Some(i), current, disk)
      ensures r.Ok? ==> textFilePaths == TextPaths(config.outputFolder, config.timestamp, Some(i), |variables|)
      ensures r.Ok? ==> host.Renders(disk, RenderCommand(current, Some(i)), r.value.buffer)
      ensures r.Ok? ==> OutputPath(Some(i)) in host.files && r.value.buffer == host.files[OutputPath(Some(i))]
      ensures r.Ok? ==> r.value.filename == GifFilename(variables, fileContents, gifName, i)
      ensures r.Ok? ==> [OutputPath(Some(i))] + textFilePaths == IterationFiles(i, |variables|)
      ensures r.Ok? ==> forall p :: p in host.files <==> p in old(host.files) || p in IterationFiles(i, |variables|)
      ensures forall p :: p in old(host.files) ==> p in host.files
      ensures OnlyIterationChanged(old(host.files), host.files, i, |variables|)
    {
      var currentVariables, filenameValue := ResolveIteration(variables, fileContents, gifName, i);
      current := currentVariables;
      var gifBuffer;
      gifBuffer, textFilePaths, disk := RenderOverlaid(host, currentVariables, Some(i));
      IterationFrame(old(host.files), disk, host.files, textFilePaths, TextsOf(currentVariables), i);
      if gifBuffer.Err? {
        r := Err(gifBuffer.error);
      } else {
        r := Ok(NamedGif(filenameValue + ".gif", gifBuffer.value));
      }
    }

    /** What one bulk pass does to the disk: `disk` is `before` with the texts written to
        `textFilePaths`, and `after` is `disk` with at most the GIF of iteration `k` changed. */
    lemma IterationFrame(before: map<string, FileData>, disk: map<string, FileData>, after: map<string, FileData>,
                         textFilePaths: seq<string>, texts: seq<string>, k: nat)
      requires textFilePaths == TextPaths(config.outputFolder, config.timestamp, Some(k), |textFilePaths|)
      requires |textFilePaths| <= |texts|
      requires disk == Stored(before, textFilePaths, texts)
      requires after - {OutputPath(Some(k))} == disk - {OutputPath(Some(k))}
      requires forall p :: p in after ==> p in disk || p == OutputPath(Some(k))
      requires forall p :: p in disk ==> p in after
      ensures Agree(disk, before, VideoPath())
      ensures OnlyIterationChanged(before, after, k, |texts|)
      ensures forall p :: p in before ==> p in after
      ensures |textFilePaths| == |texts| ==>
        && disk == Stored(before, TextPaths(config.outputFolder, config.timestamp, Some(k), |texts|), texts)
        && HoldsTexts(disk, k, texts)
        && [OutputPath(Some(k))] + textFilePaths == IterationFiles(k, |texts|)
      ensures |textFilePaths| == |texts| && OutputPath(Some(k)) in after ==>
        forall p :: p in after <==> p in before || p in IterationFiles(k, |texts|)
    {
      var n := |texts|;
      TextPathsAreIterationFiles(k, n, |textFilePaths|);
      StoredFrame(before, textFilePaths, texts, k, n);
      OutputChangedOnly(before, disk, after, k, n);
      VideoNotIterationFile(k, n);
      if |textFilePaths| == n {
        TextPathsDistinct(config.outputFolder, config.timestamp, Some(k), n);
        StoredAt(before, textFilePaths, texts);
      }
    }

    lemma WrittenOutside(files: map<string, FileData>, path: string, data: FileData)
      ensures files[path := data] - {path} == files - {path}
    {
    }

    /** Writing the GIF of bulk iteration `k` after its texts still changes only that iteration's
        scratch files. */
    lemma OutputChangedOnly(before: map<string, FileData>, mid: map<string, FileData>,
                            after: map<string, FileData>, k: nat, n: nat)
      requires OnlyIterationChanged(before, mid, k, n)
      requires after - {OutputPath(Some(k))} == mid - {OutputPath(Some(k))}
      ensures OnlyIterationChanged(before, after, k, n)
    {
      forall p | p !in IterationFiles(k, n) ensures Agree(after, before, p) {
        assert p != OutputPath(Some(k));
        assert p in after <==> p in after - {OutputPath(Some(k))};
        assert p in mid <==> p in mid - {OutputPath(Some(k))};
        assert Agree(mid, before, p);
        if p in after {
          assert after[p] == (after - {OutputPath(Some(k))})[p] == (mid - {OutputPath(Some(k))})[p] == mid[p];
        }
      }
    }

    /** The `for` loop of `generateBulkGifs`: iterations `0 .. count - 1` in order, each
        appending its GIF to `gifs` and its scratch files to `tempFiles`; the first failing
        iteration ends the job. */
    method RenderIterations(host: Host, variables: VariableMap, fileContents: LineSources,
                            gifName: string, count: nat)
      returns (r: Result<seq<NamedGif>, Error>, tempFiles: seq<string>,
               ghost rendered: seq<seq<Property<VariableData>>>, ghost disks: seq<map<string, FileData>>,
               ghost done: seq<NamedGif>, ghost failed: seq<Property<VariableData>>,
               ghost failedDisk: map<string, FileData>)
      modifies host
      ensures r.Ok? ==> |r.value| == count
      ensures r.Ok? ==> FilenamesOf(r.value) == GifFilenames(variables, fileContents, gifName, count)
      ensures r.Ok? ==> rendered == IterationVariables(variables, fileContents, count)
      ensures r.Ok? ==> RenderedFrom(host, r.value, rendered, disks, old(host.files))
      ensures r.Ok? ==> GifsOnDisk(host.files, r.value)
      ensures r.Ok? ==> tempFiles == TempFiles(|variables|, count)
      ensures r.Ok? ==> forall p :: p in host.files <==> p in old(host.files) || p in tempFiles
      ensures r.Ok? ==> BulkIoAllowed(host, count, |variables|) && done == r.value
      ensures r.Err? ==> |done| < count && rendered == IterationVariables(variables, fileContents, |done|)
      ensures r.Err? ==> failed == Resolved(variables, fileContents, |done|)
      ensures r.Err? ==> FailedAfter(host, r.error, done, rendered, disks, failed, failedDisk, old(host.files), |variables|)
      ensures forall p :: p in old(host.files) ==> p in host.files
      ensures r != Err(EmptyTextFiles)
    {
      tempFiles, rendered, disks := [], [], [];
      r, done, failed, failedDisk := Ok([]), [], [], map[];
      var gifs: seq<NamedGif> := [];
      var i := 0;
      while i < count
        invariant 0 <= i <= count
        invariant BulkProgress(host, old(host.files), host.files, variables, fileContents, gifName, i,
                               gifs, tempFiles, rendered, disks)
      {
        ghost var before := host.files;
        var outputGifPath := OutputPath(Some(i));
        var gif, textFilePaths, current, disk := RenderIteration(host, variables, fileContents, gifName, i);
        if gif.Err? {
          BulkProgressFailed(host, old(host.files), before, host.files, variables, fileContents, gifName, i,
                             gifs, tempFiles, rendered, disks, gif.error, current, disk);
          r, done, failed, failedDisk := Err(gif.error), gifs, current, disk;
          break;
        }
        BulkProgressStep(host, old(host.files), before, host.files, variables, fileContents, gifName, i,
                         gifs, tempFiles, rendered, disks, gif.value, textFilePaths, current, disk);
        tempFiles := tempFiles + ([outputGifPath] + textFilePaths);
        gifs := gifs + [gif.value];
        rendered := rendered + [current];
        disks := disks + [disk];
        i := i + 1;
      }
      if r.Ok? {
        r, done := Ok(gifs), gifs;
      }
    }

    /** The state of the bulk loop after `i` passes over a disk that was `files0`: `gifs`,
        `tempFiles` and `rendered` are those of iterations `0 .. i - 1`, each GIF was rendered
        on its disk and is still on `files`, and every write and read so far was allowed. */
    ghost predicate BulkProgress(host: Host, files0: map<string, FileData>, files: map<string, FileData>,
                           variables: VariableMap, fileContents: LineSources, gifName: string, i: nat,
                           gifs: seq<NamedGif>, tempFiles: seq<string>,
                           rendered: seq<seq<Property<VariableData>>>, disks: seq<map<string, FileData>>)
    {
      && |gifs| == i
      && tempFiles == TempFiles(|variables|, i)
      && FilenamesOf(gifs) == GifFilenames(variables, fileContents, gifName, i)
      && rendered == IterationVariables(variables, fileContents, i)
      && RenderedFrom(host, gifs, rendered, disks, files0)
      && GifsOnDisk(files, gifs)
      && Agree(files, files0, VideoPath())
      && (forall p :: p in files <==> p in files0 || p in tempFiles)
      && BulkIoAllowed(host, i, |variables|)
    }

    /** A successful pass `i` that changed only its own scratch files moves the bulk loop on. */
    lemma BulkProgressStep(host: Host, files0: map<string, FileData>, before: map<string, FileData>,
                           after: map<string, FileData>, variables: VariableMap, fileContents: LineSources,
                           gifName: string, i: nat, gifs: seq<NamedGif>, tempFiles: seq<string>,
                           rendered: seq<seq<Property<VariableData>>>, disks: seq<map<string, FileData>>,
                           gif: NamedGif, textFilePaths: seq<string>, current: seq<Property<VariableData>>,
                           disk: map<string, FileData>)
      requires BulkProgress(host, files0, before, variables, fileContents, gifName, i, gifs, tempFiles, rendered, disks)
      requires current == Resolved(variables, fileContents, i)
      requires HoldsTexts(disk, i, TextsOf(current)) && Agree(disk, before, VideoPath())
      requires StepsSucceed(host, Some(i), current, disk)
      requires host.Renders(disk, RenderCommand(current, Some(i)), gif.buffer)
      requires OutputPath(Some(i)) in after && gif.buffer == after[OutputPath(Some(i))]
      requires gif.filename == GifFilename(variables, fileContents, gifName, i)
      requires [OutputPath(Some(i))] + textFilePaths == IterationFiles(i, |variables|)
      requires forall p :: p in after <==> p in before || p in IterationFiles(i, |variables|)
      requires OnlyIterationChanged(before, after, i, |variables|)
      ensures BulkProgress(host, files0, after, variables, fileContents, gifName, i + 1, gifs + [gif],
                           tempFiles + ([OutputPath(Some(i))] + textFilePaths), rendered + [current],
                           disks + [disk])
    {
      BulkIoAllowedStep(host, i, |variables|);
      VideoNotIterationFile(i, |variables|);
      assert Agree(after, before, VideoPath());
      GifsOnDiskStep(before, after, gifs, gif, |variables|);
      RenderedFromStep(host, gifs, rendered, disks, files0, gif, current, disk);
      IterationStep(variables, fileContents, gifName, i, gifs, tempFiles, rendered, gif, textFilePaths, current);
    }

    /** A failed pass `i` ends the bulk loop with every earlier pass rendered and this one's
        failing step named. */
    lemma BulkProgressFailed(host: Host, files0: map<string, FileData>, before: map<string, FileData>,
                             after: map<string, FileData>, variables: VariableMap, fileContents: LineSources,
                             gifName: string, i: nat, gifs: seq<NamedGif>, tempFiles: seq<string>,
                             rendered: seq<seq<Property<VariableData>>>, disks: seq<map<string, FileData>>,
                             e: Error, current: seq<Property<VariableData>>, disk: map<string, FileData>)
      requires BulkProgress(host, files0, before, variables, fileContents, gifName, i, gifs, tempFiles, rendered, disks)
      requires current == Resolved(variables, fileContents, i)
      requires Agree(disk, before, VideoPath())
      requires StepFailed(host, e, Some(i), current, disk)
      requires OverlayWritesAllowed(host, Some(i), |variables|) ==> HoldsTexts(disk, i, TextsOf(current))
      requires forall p :: p in before ==> p in after
      ensures FailedAfter(host, e, gifs, rendered, disks, current, disk, files0, |variables|)
      ensures forall p :: p in files0 ==> p in after
      ensures e != EmptyTextFiles
    {
    }

    /** One more iteration extends the loop's state by its GIF, its scratch files and its
        variables. */
    lemma IterationStep(variables: seq<Property<VariableData>>, fileContents: seq<Property<seq<string>>>,
                        gifName: string, i: nat, gifs: seq<NamedGif>, tempFiles: seq<string>,
                        rendered: seq<seq<Property<VariableData>>>, gif: NamedGif,
                        textFilePaths: seq<string>, current: seq<Property<VariableData>>)
      requires |gifs| == i && tempFiles == TempFiles(|variables|, i)
      requires FilenamesOf(gifs) == GifFilenames(variables, fileContents, gifName, i)
      requires rendered == IterationVariables(variables, fileContents, i)
      requires gif.filename == GifFilename(variables, fileContents, gifName, i)
      requires current == Resolved(variables, fileContents, i)
      requires [OutputPath(Some(i))] + textFilePaths == IterationFiles(i, |variables|)
      ensures tempFiles + ([OutputPath(Some(i))] + textFilePaths) == TempFiles(|variables|, i + 1)
      ensures FilenamesOf(gifs + [gif]) == GifFilenames(variables, fileContents, gifName, i + 1)
      ensures rendered + [current] == IterationVariables(variables, fileContents, i + 1)
    {
      IterationVariablesStep(variables, fileContents, i);
      GifFilenamesStep(variables, fileContents, gifName, i);
      FilenamesOfStep(gifs, gif);
    }

    /** `generateBulkGifs`: one GIF per line index up to the longest line source, each named by
        its last keyed line (or `{gifName}_{i + 1}`); the cleanup list holds the video and every
        iteration's scratch files in order. Empty line sources are refused after the download,
        and a failure leaves every scratch file where it is. */
    method GenerateBulkGifs(host: Host, videoUrl: string, variables: VariableMap,
                            fileContents: LineSources, gifName: string)
      returns (r: Result<BulkGifs, Error>, ghost rendered: seq<seq<Property<VariableData>>>,
               ghost disks: seq<map<string, FileData>>, ghost done: seq<NamedGif>,
               ghost failed: seq<Property<VariableData>>, ghost failedDisk: map<string, FileData>)
      modifies host
      ensures r.Ok? ==> |r.value.gifs| == IterationCount(MaxLines(fileContents))
      ensures r.Ok? ==> FilenamesOf(r.value.gifs) == GifFilenames(variables, fileContents, gifName, |r.value.gifs|)
      ensures r.Ok? ==> rendered == IterationVariables(variables, fileContents, |r.value.gifs|)
      ensures r.Ok? ==> DownloadSucceeds(host, videoUrl)
      ensures r.Ok? ==> RenderedFrom(host, r.value.gifs, rendered, disks,
                                     old(host.files)[VideoPath() := BinaryFile(host.network(videoUrl).value)])
      ensures r.Ok? ==> GifsOnDisk(host.files, r.value.gifs)
      ensures r.Ok? ==> r.value.cleanup == [VideoPath()] + TempFiles(|variables|, |r.value.gifs|)
      ensures r.Ok? ==> forall p :: p in host.files <==> p in old(host.files) || p in r.value.cleanup
      ensures r.Ok? ==> BulkIoAllowed(host, |r.value.gifs|, |variables|)
      ensures host.network(videoUrl).None? ==> r == Err(FetchFailed(videoUrl))
      ensures host.network(videoUrl).Some? && !host.writeOk(VideoPath()) ==> r == Err(WriteFailed(VideoPath()))
      ensures r == Err(EmptyTextFiles) <==>
        DownloadSucceeds(host, videoUrl) && MaxLines(fileContents) == Finite(0)
      ensures r.Err? && DownloadSucceeds(host, videoUrl) && MaxLines(fileContents) != Finite(0) ==>
        && |done| < IterationCount(MaxLines(fileContents))
        && rendered == IterationVariables(variables, fileContents, |done|)
        && failed == Resolved(variables, fileContents, |done|)
        && FailedAfter(host, r.error, done, rendered, disks, failed, failedDisk,
                       old(host.files)[VideoPath() := BinaryFile(host.network(videoUrl).value)], |variables|)
      ensures r.Err? ==> forall p :: p in old(host.files) ==> p in host.files
    {
      rendered, disks, done, failed, failedDisk := [], [], [], [], map[];
      var download := DownloadVideo(host, videoUrl);
      if download.Err? {
        return Err(download.error), rendered, disks, done, failed, failedDisk;
      }
      var videoPath := download.value;
      var maxLines := MaxLines(fileContents);
      if maxLines == Finite(0) {
        return Err(EmptyTextFiles), rendered, disks, done, failed, failedDisk;
      }
      var gifs, tempFiles;
      gifs, tempFiles, rendered, disks, done, failed, failedDisk :=
        RenderIterations(host, variables, fileContents, gifName, IterationCount(maxLines));
      if gifs.Err? {
        r := Err(gifs.error);
        return;
      }
      r := Ok(BulkGifs(gifs.value, [videoPath] + tempFiles));
    }
  }

  /** The name of file `a` of bulk iteration `k`: the GIF first, then the texts in entry order. */
  function IterationName(ts: nat, k: nat, a: nat): string {
    if a == 0 then OutputGifName(ts, Some(k)) else TextFileName(ts, Some(k), a - 1)
  }

  /** Iteration file names are pairwise distinct. */
  lemma IterationNameInjective(ts: nat, k: nat, a: nat, k': nat, b: nat)
    ensures IterationName(ts, k, a) == IterationName(ts, k', b) ==> k == k' && a == b
  {
    if a == 0 && b == 0 {
      assert IterationName(ts, k, a) == OutputGifName(ts, Some(k));
      assert IterationName(ts, k', b) == OutputGifName(ts, Some(k'));
      OutputGifNameInjective(ts, Some(k), ts, Some(k'));
    } else if a != 0 && b != 0 {
      assert IterationName(ts, k, a) == TextFileName(ts, Some(k), a - 1);
      assert IterationName(ts, k', b) == TextFileName(ts, Some(k'), b - 1);
      TextFileNameInjective(ts, Some(k), a - 1, ts, Some(k'), b - 1);
    } else if a == 0 {
      assert IterationName(ts, k, a) == OutputGifName(ts, Some(k));
      assert IterationName(ts, k', b) == TextFileName(ts, Some(k'), b - 1);
      NameKindsDiffer(ts, Some(k), b - 1, ts, Some(k'));
    } else {
      assert IterationName(ts, k, a) == TextFileName(ts, Some(k), a - 1);
      assert IterationName(ts, k', b) == OutputGifName(ts, Some(k'));
      NameKindsDiffer(ts, Some(k'), a - 1, ts, Some(k));
    }
  }

  /** Iteration file names differ from the video's, and none needs slash conversion. */
  lemma IterationNamePlain(ts: nat, k: nat, a: nat)
    ensures IterationName(ts, k, a) != InputVideoName(ts)
    ensures '\\' !in IterationName(ts, k, a) && '\\' !in InputVideoName(ts)
  {
    var ia: nat := if a == 0 then 0 else a - 1;
    NamesArePlain(ts, Some(k), ia);
    NameKindsDiffer(ts, Some(k), ia, ts, Some(k));
  }

  /** A sequence that agrees with `s` and then holds `x` is `s + [x]`. */
  lemma Extend<T>(r: seq<T>, s: seq<T>, x: T)
    requires |r| == |s| + 1 && r[|s|] == x
    requires forall k :: 0 <= k < |s| ==> r[k] == s[k]
    ensures r == s + [x]
  {
  }

  lemma InPairThen<T>(x: T, y: T, s: seq<T>)
    ensures forall p :: p in [x, y] + s <==> p == x || p == y || p in s
  {
  }

  /** `a` and `b` agree at `p`: both lack it, or both hold the same contents there. */
  predicate Agree(a: map<string, FileData>, b: map<string, FileData>, p: string) {
    (p in a <==> p in b) && (p in a ==> a[p] == b[p])
  }

  /** No two entries of `s` are equal. */
  predicate Distinct<T(==)>(s: seq<T>) {
    forall i, j :: 0 <= i < j < |s| ==> s[i] != s[j]
  }

  lemma DistinctConcat<T>(a: seq<T>, b: seq<T>)
    requires Distinct(a) && Distinct(b)
    requires forall x :: x in a ==> x !in b
    ensures Distinct(a + b)
  {
    forall i, j | 0 <= i < j < |a + b| ensures (a + b)[i] != (a + b)[j] {
      if j >= |a| && i < |a| {
        assert (a + b)[i] in a && (a + b)[j] == b[j - |a|];
      } else if i >= |a| {
        assert (a + b)[i] == b[i - |a|] && (a + b)[j] == b[j - |a|];
      }
    }
  }
}
