/** The outside world the render job talks to: the scratch disk, the network and the FFmpeg
    binary. The disk is a map from path to contents that the steps update; whether a fetch, a
    write, a read or an FFmpeg run succeeds, and what it produces, is fixed by oracles the host is
    built with, so every step may fail but does so deterministically. */
module Io {
  import opened Wrappers

  newtype byte = x: int | 0 <= x < 256

  type Bytes = seq<byte>

  /** What a scratch file holds: the text of an overlay, or binary data (video, GIF). */
  datatype FileData = TextFile(text: string) | BinaryFile(bytes: Bytes)

  /** Why a step threw. */
  datatype Error =
    | FetchFailed(url: string)
    | WriteFailed(path: string)
    | ReadFailed(path: string)
    | RenderFailed(output: string)
    | EmptyTextFiles
    | MalformedRequest

  /** One FFmpeg invocation: `ffmpeg(input).outputOptions(options).output(output)`. */
  datatype FfmpegCommand = FfmpegCommand(input: string, outputOptions: seq<string>, output: string)

  /** The command both renderers build: the filter as `-vf`, GIF format, looping forever, ten
      frames a second. */
  function GifCommand(input: string, filter: string, output: string): FfmpegCommand
  {
    FfmpegCommand(input, ["-vf", filter, "-f", "gif", "-loop", "0", "-r", "10"], output)
  }

  /** The host: a scratch disk plus the oracles that decide the external steps. */
  class Host {
    var files: map<string, FileData>
    /** The body a URL answers with, or `None` when the request fails. */
    const network: string -> Option<Bytes>
    /** Whether writing / reading a path succeeds. */
    const writeOk: string -> bool
    const readOk: string -> bool
    /** The output FFmpeg produces for a command on a given disk, or `None` when it fails. */
    const ffmpeg: (map<string, FileData>, FfmpegCommand) -> Option<Bytes>

    constructor(files: map<string, FileData>, network: string -> Option<Bytes>,
                writeOk: string -> bool, readOk: string -> bool,
                ffmpeg: (map<string, FileData>, FfmpegCommand) -> Option<Bytes>)
      ensures this.files == files && this.network == network
      ensures this.writeOk == writeOk && this.readOk == readOk && this.ffmpeg == ffmpeg
    {
      this.files := files;
      this.network := network;
      this.writeOk := writeOk;
      this.readOk := readOk;
      this.ffmpeg := ffmpeg;
    }

    /** Whether FFmpeg, run on `disk`, renders `command` to `data`. */
    predicate Renders(disk: map<string, FileData>, command: FfmpegCommand, data: FileData) {
      data.BinaryFile? && ffmpeg(disk, command) == Some(data.bytes)
    }

    /** `await (await fetch(url)).arrayBuffer()`. */
    method Fetch(url: string) returns (r: Result<Bytes, Error>)
      ensures network(url).Some? ==> r == Ok(network(url).value)
      ensures network(url).None? ==> r == Err(FetchFailed(url))
    {
      match network(url)
      case Some(body) => r := Ok(body);
      case None => r := Err(FetchFailed(url));
    }

    /** `writeFile(path, data)`: on success the path holds `data`; on failure nothing changes. */
    method WriteFile(path: string, data: FileData) returns (ok: bool)
      modifies this
      ensures ok == writeOk(path)
      ensures files == if ok then old(files)[path := data] else old(files)
    {
      ok := writeOk(path);
      if ok {
        files := files[path := data];
      }
    }

    /** `readFile(path)`: the contents, or a failure when the path is missing or unreadable. */
    method ReadFile(path: string) returns (r: Result<FileData, Error>)
      ensures path in files && readOk(path) ==> r == Ok(files[path])
      ensures !(path in files && readOk(path)) ==> r == Err(ReadFailed(path))
    {
      if path in files && readOk(path) {
        r := Ok(files[path]);
      } else {
        r := Err(ReadFailed(path));
      }
    }

    /** Runs FFmpeg to completion: on `end` the output file holds what it rendered; on `error`
        the disk is as before. */
    method RunFfmpeg(command: FfmpegCommand) returns (ok: bool)
      modifies this
      ensures ok == ffmpeg(old(files), command).Some?
      ensures ok ==> files == old(files)[command.output := BinaryFile(ffmpeg(old(files), command).value)]
      ensures !ok ==> files == old(files)
    {
      var out := ffmpeg(files, command);
      ok := out.Some?;
      if ok {
        files := files[command.output := BinaryFile(out.value)];
      }
    }

    /** `unlink(path).catch(() => {})`: the path is gone afterwards and no error escapes. */
    method Unlink(path: string)
      modifies this
      ensures files == old(files) - {path}
    {
      files := files - {path};
    }

    /** Unlinks every path of the list, swallowing every error. */
    method UnlinkAll(paths: seq<string>)
      modifies this
      ensures files == old(files) - set p | p in paths
    {
      var j := 0;
      while j < |paths|
        invariant 0 <= j <= |paths|
        invariant files == old(files) - set p | p in paths[..j]
      {
        assert paths[..j + 1] == paths[..j] + [paths[j]];
        Unlink(paths[j]);
        j := j + 1;
      }
      assert paths[..j] == paths;
    }
  }
}
