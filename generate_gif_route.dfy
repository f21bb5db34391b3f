/** The `POST /api/generate-gif` handler: it reads `{ videoUrl, variables }` from the request,
    downloads the video into `{cwd}/tmp`, writes one text file per overlay, renders the GIF with
    FFmpeg, reads it back and answers with it as an attachment; any failure becomes a JSON 500
    answer. The `finally` block then unlinks the video, the GIF and every text path recorded as
    written. */
module GenerateGifRoute {
  import opened Wrappers
  import opened JsText
  import opened JsObject
  import opened Variables
  import opened Io
  import opened Overlay
  import Ffmpeg

  /** The parsed request body. */
  datatype Request = Request(videoUrl: string, variables: VariableMap)

  /** What the handler answers: the GIF as a download, or a JSON error with its status. */
  datatype Response =
    | GifResponse(body: FileData, contentType: string, contentDisposition: string)
    | JsonError(status: nat, error: string, details: Error)

  /** `join(process.cwd(), 'tmp')`. */
  function ScratchFolder(cwd: string): string {
    cwd + "/tmp"
  }

  function InputPath(folder: string, ts: nat): string {
    ScratchPath(folder, InputVideoName(ts))
  }

  function OutputPath(folder: string, ts: nat): string {
    ScratchPath(folder, OutputGifName(ts, None))
  }

  /** `attachment; filename="generated-{ts}.gif"`. */
  function Disposition(ts: nat): string {
    "attachment; filename=\"generated-" + NatText(ts) + ".gif\""
  }

  /** The one FFmpeg command the handler runs for these overlays. */
  function RouteCommand(folder: string, ts: nat, fontPath: string, floatText: string -> string,
                        variables: seq<Property<VariableData>>): FfmpegCommand {
    GifCommand(InputPath(folder, ts),
               FilterComplex(TextPaths(folder, ts, None, |variables|), ValuesOf(variables), fontPath, floatText),
               OutputPath(folder, ts))
  }

  /** The disk FFmpeg runs on: the saved video plus every overlay's text file. */
  function RenderDisk(files: map<string, FileData>, folder: string, ts: nat, video: Bytes,
                      variables: seq<Property<VariableData>>): map<string, FileData> {
    Stored(files[InputPath(folder, ts) := BinaryFile(video)], TextPaths(folder, ts, None, |variables|), TextsOf(variables))
  }

  /** The scratch files of one request whose first `n` overlay files were written. */
  function ScratchFiles(folder: string, ts: nat, n: nat): seq<string> {
    [InputPath(folder, ts), OutputPath(folder, ts)] + TextPaths(folder, ts, None, n)
  }

  /** The paths of a list, as a set. */
  function PathSet(paths: seq<string>): set<string> {
    set p | p in paths
  }

  /** Outside `scratch`, `files` holds exactly what `before` held. */
  predicate SameOutside(before: map<string, FileData>, files: map<string, FileData>, scratch: seq<string>) {
    files - PathSet(scratch) == before - PathSet(scratch)
  }

  /** Whether the download gets the video onto the disk. */
  predicate Downloads(host: Host, request: Request, folder: string, ts: nat) {
    host.network(request.videoUrl).Some? && host.writeOk(InputPath(folder, ts))
  }

  /** A write at a scratch path keeps the rest of the disk as it was. */
  lemma OutsideWrite(before: map<string, FileData>, files: map<string, FileData>, scratch: seq<string>,
                     path: string, data: FileData)
    requires SameOutside(before, files, scratch) && path in scratch
    ensures SameOutside(before, files[path := data], scratch)
  {
    assert files[path := data] - PathSet(scratch) == files - PathSet(scratch);
  }

  /** Writing the overlay texts keeps every path outside them as it was. */
  lemma OutsideStored(before: map<string, FileData>, paths: seq<string>, texts: seq<string>, first: string)
    requires |paths| <= |texts|
    ensures SameOutside(before, Stored(before, paths, texts), [first] + paths)
  {
    var stored, outside := Stored(before, paths, texts), PathSet([first] + paths);
    forall p | p !in outside
      ensures p in stored <==> p in before
      ensures p in stored ==> stored[p] == before[p]
    {
      assert p !in paths;
      StoredElsewhere(before, paths, texts, p);
    }
    assert stored - outside == before - outside;
  }

  /** A write that came first adds its path to the scratch list. */
  lemma OutsideFirst(before: map<string, FileData>, path: string, data: FileData,
                     files: map<string, FileData>, rest: seq<string>)
    requires SameOutside(before[path := data], files, rest)
    ensures SameOutside(before, files, [path] + rest)
  {
    var inner, outer := PathSet(rest), PathSet([path] + rest);
    assert outer == inner + {path};
    assert files - outer == (files - inner) - {path};
    assert before - outer == (before[path := data] - inner) - {path};
  }

  /** The video, written first, joins the scratch paths of the later steps. */
  lemma OutsideAfterDownload(before: map<string, FileData>, video: FileData, files: map<string, FileData>,
                             folder: string, ts: nat, textFilePaths: seq<string>)
    requires SameOutside(before[InputPath(folder, ts) := video], files, [OutputPath(folder, ts)] + textFilePaths)
    requires textFilePaths == TextPaths(folder, ts, None, |textFilePaths|)
    ensures SameOutside(before, files, ScratchFiles(folder, ts, |textFilePaths|))
  {
    OutsideFirst(before, InputPath(folder, ts), video, files, [OutputPath(folder, ts)] + textFilePaths);
    assert ScratchFiles(folder, ts, |textFilePaths|) == [InputPath(folder, ts)] + ([OutputPath(folder, ts)] + textFilePaths);
  }

  /** Steps 3 to 6 of the `try` block: write each overlay's text file, run FFmpeg with the
      filter that draws them and read the GIF back. `disk` is the disk after the writes, the one
      FFmpeg runs on; the outcome is success exactly when every step succeeds, and an error
      names the step that failed. The paths of the overlay files written so far are returned
      whether or not it succeeds; nothing outside them and the GIF changes. */
  method RenderOverlays(host: Host, folder: string, ts: nat, fontPath: string, floatText: string -> string,
                        variables: seq<Property<VariableData>>)
    returns (result: Result<FileData, Error>, textFilePaths: seq<string>, ghost disk: map<string, FileData>)
    modifies host
    ensures textFilePaths == TextPaths(folder, ts, None, |textFilePaths|)
    ensures |textFilePaths| <= |variables|
    ensures |textFilePaths| == |variables| <==> WritesAllowed(host, folder, ts, None, |variables|)
    ensures |textFilePaths| < |variables| ==>
      && result == Err(WriteFailed(TextPath(folder, ts, None, |textFilePaths|)))
      && FirstRefused(host, folder, ts, None, |variables|, TextPath(folder, ts, None, |textFilePaths|))
    ensures disk == Stored(old(host.files), textFilePaths, TextsOf(variables))
    ensures result.Ok? <==>
      RenderSucceeds(host, folder, ts, None, |variables|, disk, RouteCommand(folder, ts, fontPath, floatText, variables))
    ensures result.Err? ==>
      RenderFailure(host, result.error, folder, ts, None, |variables|, disk,
                    RouteCommand(folder, ts, fontPath, floatText, variables))
    ensures result.Ok? ==> host.Renders(disk, RouteCommand(folder, ts, fontPath, floatText, variables), result.value)
    ensures SameOutside(old(host.files), host.files, [OutputPath(folder, ts)] + textFilePaths)
  {
    var outputGifPath := OutputPath(folder, ts);
    var ok, filterComplex;
    ok, filterComplex, textFilePaths := WriteOverlays(host, folder, ts, None, fontPath, floatText, variables);
    OutsideStored(old(host.files), textFilePaths, TextsOf(variables), outputGifPath);
    disk := host.files;
    if !ok {
      result := Err(WriteFailed(TextPath(folder, ts, None, |textFilePaths|)));
    } else {
      var command := GifCommand(InputPath(folder, ts), filterComplex, outputGifPath);
      assert command == RouteCommand(folder, ts, fontPath, floatText, variables);
      var rendered := host.RunFfmpeg(command);
      if !rendered {
        result := Err(RenderFailed(outputGifPath));
      } else {
        OutsideWrite(old(host.files), disk, [outputGifPath] + textFilePaths, outputGifPath, host.files[outputGifPath]);
        result := host.ReadFile(outputGifPath);
      }
    }
  }

  /** Step 2 of the `try` block: fetch the video and save it at `path`. */
  method SaveVideo(host: Host, videoUrl: string, path: string) returns (r: Result<Bytes, Error>)
    modifies host
    ensures r.Ok? <==> host.network(videoUrl).Some? && host.writeOk(path)
    ensures r.Ok? ==> r.value == host.network(videoUrl).value
    ensures r.Ok? ==> host.files == old(host.files)[path := BinaryFile(r.value)]
    ensures host.network(videoUrl).None? ==> r == Err(FetchFailed(videoUrl))
    ensures host.network(videoUrl).Some? && !host.writeOk(path) ==> r == Err(WriteFailed(path))
    ensures r.Err? ==> host.files == old(host.files)
  {
    r := host.Fetch(videoUrl);
    if r.Err? {
      return;
    }
    var saved := host.WriteFile(path, BinaryFile(r.value));
    if !saved {
      r := Err(WriteFailed(path));
    }
  }

  /** The `try` block once the body has been parsed: save the video, then render the
      overlays onto it. Once the video is saved, the outcome is success exactly when every
      later step succeeds, and an error names the step that failed. */
  method Attempt(host: Host, request: Request, folder: string, ts: nat, fontPath: string,
                 floatText: string -> string)
    returns (result: Result<FileData, Error>, textFilePaths: seq<string>, ghost disk: map<string, FileData>)
    modifies host
    ensures textFilePaths == TextPaths(folder, ts, None, |textFilePaths|)
    ensures |textFilePaths| <= |request.variables|
    ensures host.network(request.videoUrl).None? ==> result == Err(FetchFailed(request.videoUrl)) && textFilePaths == []
    ensures host.network(request.videoUrl).Some? && !host.writeOk(InputPath(folder, ts)) ==>
      result == Err(WriteFailed(InputPath(folder, ts))) && textFilePaths == []
    ensures result.Ok? ==> Downloads(host, request, folder, ts) && |textFilePaths| == |request.variables|
    ensures Downloads(host, request, folder, ts) && WritesAllowed(host, folder, ts, None, |request.variables|) ==>
      disk == RenderDisk(old(host.files), folder, ts, host.network(request.videoUrl).value, request.variables)
    ensures Downloads(host, request, folder, ts) ==>
      (result.Ok? <==> RenderSucceeds(host, folder, ts, None, |request.variables|, disk,
                                      RouteCommand(folder, ts, fontPath, floatText, request.variables)))
    ensures Downloads(host, request, folder, ts) && result.Err? ==>
      RenderFailure(host, result.error, folder, ts, None, |request.variables|, disk,
                    RouteCommand(folder, ts, fontPath, floatText, request.variables))
    ensures result.Ok? ==>
      disk == RenderDisk(old(host.files), folder, ts, host.network(request.videoUrl).value, request.variables)
    ensures result.Ok? ==>
      host.Renders(disk, RouteCommand(folder, ts, fontPath, floatText, request.variables), result.value)
    ensures SameOutside(old(host.files), host.files, ScratchFiles(folder, ts, |textFilePaths|))
  {
    disk := host.files;
    textFilePaths := [];
    var tempVideoPath := InputPath(folder, ts);
    var videoBuffer := SaveVideo(host, request.videoUrl, tempVideoPath);
    if videoBuffer.Err? {
      result := Err(videoBuffer.error);
    } else {
      result, textFilePaths, disk := RenderOverlays(host, folder, ts, fontPath, floatText, request.variables);
      OutsideAfterDownload(old(host.files), BinaryFile(videoBuffer.value), host.files, folder, ts, textFilePaths);
    }
  }

  /** `POST(request)`: the `try` block, the answer it leads to, and the `finally` block that
      unlinks the video, the GIF and every overlay file written. On success the answer carries
      what FFmpeg rendered for the request's own command; afterwards the disk is as it was,
      less the request's scratch paths. */
  method Post(host: Host, cwd: string, joinedFontPath: string, now: nat, floatText: string -> string,
              request: Option<Request>)
    returns (response: Response, ghost disk: map<string, FileData>, ghost written: nat)
    modifies host
    ensures var folder := ScratchFolder(cwd);
      response.GifResponse? ==>
        && request.Some? && Downloads(host, request.value, folder, now)
        && disk == RenderDisk(old(host.files), folder, now, host.network(request.value.videoUrl).value,
                              request.value.variables)
        && host.Renders(disk, RouteCommand(folder, now, FontPathFor(joinedFontPath), floatText,
                                           request.value.variables), response.body)
        && response.contentType == "image/gif"
        && response.contentDisposition == Disposition(now)
    ensures response.JsonError? ==> response.status == 500 && response.error == "Failed to generate GIF"
    ensures request.None? ==> response == JsonError(500, "Failed to generate GIF", MalformedRequest)
    ensures request.Some? && host.network(request.value.videoUrl).None? ==>
      response == JsonError(500, "Failed to generate GIF", FetchFailed(request.value.videoUrl))
    ensures request.Some? && host.network(request.value.videoUrl).Some? &&
            !host.writeOk(InputPath(ScratchFolder(cwd), now)) ==>
      response == JsonError(500, "Failed to generate GIF", WriteFailed(InputPath(ScratchFolder(cwd), now)))
    ensures var folder := ScratchFolder(cwd);
      request.Some? && Downloads(host, request.value, folder, now) &&
      WritesAllowed(host, folder, now, None, |request.value.variables|) ==>
        disk == RenderDisk(old(host.files), folder, now, host.network(request.value.videoUrl).value,
                           request.value.variables)
    ensures var folder := ScratchFolder(cwd);
      request.Some? && Downloads(host, request.value, folder, now) ==>
        (response.GifResponse? <==>
           RenderSucceeds(host, folder, now, None, |request.value.variables|, disk,
                          RouteCommand(folder, now, FontPathFor(joinedFontPath), floatText, request.value.variables)))
    ensures var folder := ScratchFolder(cwd);
      request.Some? && Downloads(host, request.value, folder, now) && response.JsonError? ==>
        RenderFailure(host, response.details, folder, now, None, |request.value.variables|, disk,
                      RouteCommand(folder, now, FontPathFor(joinedFontPath), floatText, request.value.variables))
    ensures request.Some? ==> written <= |request.value.variables|
    ensures response.GifResponse? ==> written == |request.value.variables|
    ensures host.files == old(host.files) - PathSet(ScratchFiles(ScratchFolder(cwd), now, written))
  {
    var fontPath := FontPathFor(joinedFontPath);
    var outputFolder := ScratchFolder(cwd);
    var tempVideoPath, outputGifPath := InputPath(outputFolder, now), OutputPath(outputFolder, now);
    var result: Result<FileData, Error>, textFilePaths: seq<string> := Err(MalformedRequest), [];
    disk := host.files;
    if request.Some? {
      result, textFilePaths, disk := Attempt(host, request.value, outputFolder, now, fontPath, floatText);
    }
    written := |textFilePaths|;
    if result.Ok? {
      response := GifResponse(result.value, "image/gif", Disposition(now));
    } else {
      response := JsonError(500, "Failed to generate GIF", result.error);
    }
    var cleanupTasks := [tempVideoPath, outputGifPath] + textFilePaths;
    assert ScratchFiles(outputFolder, now, written) == cleanupTasks;
    host.UnlinkAll(cleanupTasks);
  }

  /** The handler and the shared utility's single render build the same command when they agree
      on folder, timestamp and font: the handler is that render, with its own scratch folder. */
  lemma SameCommandAsUtility(u: Ffmpeg.FFmpegUtils, variables: seq<Property<VariableData>>)
    ensures u.RenderCommand(variables, None)
         == RouteCommand(u.config.outputFolder, u.config.timestamp, u.config.fontPath, u.floatText, variables)
  {
  }
}
