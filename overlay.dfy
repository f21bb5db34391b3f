/** What both renderers share: the names of the scratch files of one render, and the FFmpeg
    `drawtext` filter that draws every overlay twice, a black shadow first and the overlay in
    its own colour on top, each reading its text from its own scratch file. */
module Overlay {
  import opened Wrappers
  import opened JsText
  import opened JsObject
  import opened Variables
  import opened Io

  // ------------------------------------------------------------------ paths

  /** `p.replace(/\\/g, '/')`: every backslash becomes a forward slash. */
  function Slashes(p: string): string {
    ReplaceAll(p, '\\', '/')
  }

  /** `join(folder, name).replace(/\\/g, '/')`. */
  function ScratchPath(folder: string, name: string): string {
    Slashes(folder + "/" + name)
  }

  /** The font file as the filter names it: forward slashes, and the first `:` (a drive
      letter's) escaped as `\:` so that FFmpeg does not read it as an option separator. */
  function FontPathFor(joined: string): string {
    ReplaceFirst(Slashes(joined), ':', "\\:")
  }

  /** `-{iteration}` for a bulk iteration, nothing for a single render. */
  function IterSuffix(iteration: Option<nat>): string {
    match iteration
    case None => ""
    case Some(i) => "-" + NatText(i)
  }

  /** `input-{ts}.mp4`. */
  function InputVideoName(ts: nat): string {
    "input-" + NatText(ts) + ".mp4"
  }

  /** `output-{ts}.gif` for a single render, `output-{ts}-{i}.gif` for bulk iteration `i`. */
  function OutputGifName(ts: nat, iteration: Option<nat>): string {
    "output-" + StemText(ts, iteration) + ".gif"
  }

  /** `{ts}` or `{ts}-{i}`. */
  function StemText(ts: nat, iteration: Option<nat>): string {
    NatText(ts) + IterSuffix(iteration)
  }

  /** `text-{ts}{-i}-{index}.txt`: the text of the overlay at `index`, in iteration `i`. */
  function TextFileName(ts: nat, iteration: Option<nat>, index: nat): string {
    "text-" + (StemText(ts, iteration) + "-" + NatText(index)) + ".txt"
  }

  function TextPath(folder: string, ts: nat, iteration: Option<nat>, index: nat): string {
    ScratchPath(folder, TextFileName(ts, iteration, index))
  }

  /** The text paths of the first `n` overlays, in entry order. */
  function TextPaths(folder: string, ts: nat, iteration: Option<nat>, n: nat): (r: seq<string>)
    ensures |r| == n && forall j :: 0 <= j < n ==> r[j] == TextPath(folder, ts, iteration, j)
  {
    seq(n, j requires 0 <= j < n => TextPath(folder, ts, iteration, j))
  }

  // ------------------------------------------------------------------ naming is injective

  lemma DigitsArePlain(n: nat)
    ensures '-' !in NatText(n) && '\\' !in NatText(n) && ':' !in NatText(n)
  {
    var d := NatText(n);
    assert forall j :: 0 <= j < |d| ==> IsDigit(d[j]);
  }

  /** The timestamp and the iteration, the dash-separated numbers a name starts with. */
  function Stem(ts: nat, iteration: Option<nat>): seq<string> {
    match iteration
    case None => [NatText(ts)]
    case Some(i) => [NatText(ts), NatText(i)]
  }

  lemma StemJoin(ts: nat, iteration: Option<nat>)
    ensures StemText(ts, iteration) == Join(Stem(ts, iteration), "-")
  {
  }

  lemma StemIndexJoin(ts: nat, iteration: Option<nat>, index: nat)
    ensures StemText(ts, iteration) + "-" + NatText(index)
         == Join(Stem(ts, iteration) + [NatText(index)], "-")
  {
    StemJoin(ts, iteration);
    JoinAppend(Stem(ts, iteration), NatText(index), "-");
  }

  lemma StemIsPlain(ts: nat, iteration: Option<nat>)
    ensures forall j :: 0 <= j < |Stem(ts, iteration)| ==> '-' !in Stem(ts, iteration)[j]
  {
    DigitsArePlain(ts);
    if iteration.Some? {
      DigitsArePlain(iteration.value);
    }
  }

  lemma ConcatIsPlain(a: seq<string>, b: seq<string>)
    requires forall j :: 0 <= j < |a| ==> '-' !in a[j]
    requires forall j :: 0 <= j < |b| ==> '-' !in b[j]
    ensures forall j :: 0 <= j < |a + b| ==> '-' !in (a + b)[j]
  {
  }

  /** The numbers are read back from the dash-separated middle of a name. */
  lemma StemSplit(ts: nat, iteration: Option<nat>, extra: seq<string>)
    requires forall j :: 0 <= j < |extra| ==> '-' !in extra[j]
    ensures Split(Join(Stem(ts, iteration) + extra, "-"), '-') == Stem(ts, iteration) + extra
  {
    StemIsPlain(ts, iteration);
    ConcatIsPlain(Stem(ts, iteration), extra);
    SplitJoin(Stem(ts, iteration) + extra, '-');
  }

  lemma StemInjective(ts: nat, it: Option<nat>, ts': nat, it': Option<nat>)
    requires Stem(ts, it) == Stem(ts', it')
    ensures ts == ts' && it == it'
  {
    NatTextInjective(ts, ts');
    if it.Some? && it'.Some? {
      NatTextInjective(it.value, it'.value);
    }
  }

  lemma Middle(pre: string, m: string, post: string)
    ensures |pre + m + post| == |pre| + |m| + |post|
    ensures (pre + m + post)[|pre|..|pre + m + post| - |post|] == m
  {
  }

  /** The numbers in a text file name, read back. */
  lemma TextNameParts(ts: nat, it: Option<nat>, index: nat)
    ensures var name := TextFileName(ts, it, index);
      |name| >= 9 && Split(name[5..|name| - 4], '-') == Stem(ts, it) + [NatText(index)]
  {
    var m := StemText(ts, it) + "-" + NatText(index);
    var name := TextFileName(ts, it, index);
    var parts := Stem(ts, it) + [NatText(index)];
    assert |name| >= 9 && name[5..|name| - 4] == m by {
      Middle("text-", m, ".txt");
    }
    assert Join(parts, "-") == m by {
      StemIndexJoin(ts, it, index);
    }
    assert Split(Join(parts, "-"), '-') == parts by {
      DigitsArePlain(index);
      StemSplit(ts, it, [NatText(index)]);
    }
  }

  /** The numbers in an output GIF name, read back. */
  lemma OutputNameParts(ts: nat, it: Option<nat>)
    ensures var name := OutputGifName(ts, it);
      |name| >= 11 && Split(name[7..|name| - 4], '-') == Stem(ts, it)
  {
    var m := StemText(ts, it);
    var name := OutputGifName(ts, it);
    assert |name| >= 11 && name[7..|name| - 4] == m by {
      Middle("output-", m, ".gif");
    }
    assert Join(Stem(ts, it), "-") == m by {
      StemJoin(ts, it);
    }
    assert Split(Join(Stem(ts, it), "-"), '-') == Stem(ts, it) by {
      StemSplit(ts, it, []);
      assert Stem(ts, it) + [] == Stem(ts, it);
    }
  }

  /** Distinct (timestamp, iteration, index) triples name distinct text files. */
  lemma TextFileNameInjective(ts: nat, it: Option<nat>, index: nat,
                              ts': nat, it': Option<nat>, index': nat)
    ensures TextFileName(ts, it, index) == TextFileName(ts', it', index') <==>
            ts == ts' && it == it' && index == index'
  {
    if TextFileName(ts, it, index) == TextFileName(ts', it', index') {
      TextNameParts(ts, it, index);
      TextNameParts(ts', it', index');
      var p := Stem(ts, it) + [NatText(index)];
      var p' := Stem(ts', it') + [NatText(index')];
      assert p == p';
      assert Stem(ts, it) == p[..|p| - 1] == p'[..|p'| - 1] == Stem(ts', it');
      StemInjective(ts, it, ts', it');
      NatTextInjective(index, index');
    }
  }

  /** Distinct (timestamp, iteration) pairs name distinct output GIFs. */
  lemma OutputGifNameInjective(ts: nat, it: Option<nat>, ts': nat, it': Option<nat>)
    ensures OutputGifName(ts, it) == OutputGifName(ts', it') <==> ts == ts' && it == it'
  {
    if OutputGifName(ts, it) == OutputGifName(ts', it') {
      OutputNameParts(ts, it);
      OutputNameParts(ts', it');
      StemInjective(ts, it, ts', it');
    }
  }

  /** Input, output and text names never collide: they start differently. */
  lemma NameKindsDiffer(ts: nat, it: Option<nat>, index: nat, ts': nat, it': Option<nat>)
    ensures InputVideoName(ts) != OutputGifName(ts', it')
    ensures InputVideoName(ts) != TextFileName(ts', it', index)
    ensures OutputGifName(ts, it) != TextFileName(ts', it', index)
  {
    assert InputVideoName(ts)[0] == 'i';
    assert OutputGifName(ts', it')[0] == 'o' && OutputGifName(ts, it)[0] == 'o';
    assert TextFileName(ts', it', index)[0] == 't';
  }

  lemma NamesArePlain(ts: nat, it: Option<nat>, index: nat)
    ensures '\\' !in InputVideoName(ts)
    ensures '\\' !in OutputGifName(ts, it)
    ensures '\\' !in TextFileName(ts, it, index)
  {
    DigitsArePlain(ts);
    DigitsArePlain(index);
    if it.Some? {
      DigitsArePlain(it.value);
    }
  }

  /** In one folder, distinct names without backslashes give distinct scratch paths. */
  lemma ScratchPathInjective(folder: string, a: string, b: string)
    requires '\\' !in a && '\\' !in b
    ensures ScratchPath(folder, a) == ScratchPath(folder, b) <==> a == b
  {
    ReplaceAllConcat(folder + "/", a, '\\', '/');
    ReplaceAllConcat(folder + "/", b, '\\', '/');
    var pre := Slashes(folder + "/");
    if ScratchPath(folder, a) == ScratchPath(folder, b) {
      assert (pre + a)[|pre|..] == a && (pre + b)[|pre|..] == b;
    }
  }

  /** Within one render, distinct overlay indices get distinct text paths. */
  lemma TextPathsDistinct(folder: string, ts: nat, it: Option<nat>, n: nat)
    ensures forall i, j :: 0 <= i < j < n ==>
      TextPaths(folder, ts, it, n)[i] != TextPaths(folder, ts, it, n)[j]
  {
    forall i, j | 0 <= i < j < n
      ensures TextPath(folder, ts, it, i) != TextPath(folder, ts, it, j)
    {
      NamesArePlain(ts, it, i);
      NamesArePlain(ts, it, j);
      ScratchPathInjective(folder, TextFileName(ts, it, i), TextFileName(ts, it, j));
      TextFileNameInjective(ts, it, i, ts, it, j);
    }
  }

  /** The font path of a Windows-style `C:\...` location: slashes forward, drive colon escaped. */
  lemma FontPathEscapesDrive(drive: string, rest: string)
    requires ':' !in drive && '\\' !in drive
    ensures FontPathFor(drive + ":" + rest) == drive + "\\:" + Slashes(rest)
  {
    ReplaceAllConcat(drive + ":", rest, '\\', '/');
    ReplaceAllConcat(drive, ":", '\\', '/');
    ReplaceFirstAt(drive, Slashes(rest), ':', "\\:");
  }

  /** A font path without colon only has its backslashes turned. */
  lemma FontPathWithoutColon(joined: string)
    requires ':' !in joined
    ensures FontPathFor(joined) == Slashes(joined)
  {
    assert ':' !in Slashes(joined) by {
      assert forall j :: 0 <= j < |joined| ==> Slashes(joined)[j] == joined[j] || Slashes(joined)[j] == '/';
    }
    ReplaceFirstAt(Slashes(joined), [], ':', "\\:");
  }

  // ------------------------------------------------------------------ the drawtext filter

  /** One `drawtext` filter: which text file, where, how large, which colour, which font. */
  datatype DrawText = DrawText(textFile: string, x: string, y: string, fontSize: string,
                               fontColor: string, fontFile: string)

  /** The filter as FFmpeg reads it; the text file and the font file are quoted. */
  function Render(d: DrawText): string {
    "drawtext=textfile='" + d.textFile + "':x=" + d.x + ":y=" + d.y + ":fontsize=" + d.fontSize
      + ":fontcolor=" + d.fontColor + ":fontfile='" + d.fontFile + "'"
  }

  /** How the filter names a text file: its first `:` escaped as `\:`. */
  function FilterTextRef(path: string): string {
    ReplaceFirst(path, ':', "\\:")
  }

  /** `${parseInt(fontSize)}`: the integer the size starts with, or `NaN`. */
  function FontSizeText(p: Position): string {
    ParseIntText(p.fontSize)
  }

  /** The overlay's left edge: centred on the frame, or `left` percent of the frame width.
      `floatText` is `parseFloat` printed back into the template. */
  function X(p: Position, floatText: string -> string): string {
    if p.horizontalCenter then "(w-text_w)/2" else "(w*" + floatText(p.left) + "/100)"
  }

  /** The overlay's top edge: `top` percent of the frame height. */
  function Y(p: Position, floatText: string -> string): string {
    "(h*" + floatText(p.top) + "/100)"
  }

  /** The foreground pass: the overlay in its own colour. */
  function Foreground(path: string, d: VariableData, fontPath: string,
                      floatText: string -> string): DrawText {
    DrawText(FilterTextRef(path), X(d.position, floatText), Y(d.position, floatText),
             FontSizeText(d.position), d.position.color, fontPath)
  }

  /** The shadow pass, with its coordinates spelled as the renderers spell them: it is the
      foreground moved two pixels right and down, in black. */
  function Shadow(path: string, d: VariableData, fontPath: string,
                  floatText: string -> string): (s: DrawText)
    ensures var fg := Foreground(path, d, fontPath, floatText);
      s == fg.(x := fg.x + "+2", y := fg.y + "+2", fontColor := "black")
  {
    var p := d.position;
    var shadowX := if p.horizontalCenter then "(w-text_w)/2+2"
                   else "(w*" + floatText(p.left) + "/100)+2";
    var shadowY := "(h*" + floatText(p.top) + "/100)+2";
    assert shadowX == X(p, floatText) + "+2";
    assert shadowY == Y(p, floatText) + "+2";
    DrawText(FilterTextRef(path), shadowX, shadowY, FontSizeText(p), "black", fontPath)
  }

  /** A horizontally centred overlay is drawn the same whatever its `left` says. */
  lemma CenteredIgnoresLeft(path: string, d: VariableData, fontPath: string,
                            floatText: string -> string, left: string)
    requires d.position.horizontalCenter
    ensures VariableFilter(path, d, fontPath, floatText)
         == VariableFilter(path, d.(position := d.position.(left := left)), fontPath, floatText)
  {
  }

  /** One overlay's part of the filter: shadow, then foreground, joined by `,`. */
  function VariableFilter(path: string, d: VariableData, fontPath: string,
                          floatText: string -> string): string {
    Join([Render(Shadow(path, d, fontPath, floatText)),
          Render(Foreground(path, d, fontPath, floatText))], ",")
  }

  /** The filters of all overlays, in entry order. */
  function FilterStrings(paths: seq<string>, data: seq<VariableData>, fontPath: string,
                         floatText: string -> string): (r: seq<string>)
    requires |paths| == |data|
    ensures |r| == |paths|
    ensures forall j :: 0 <= j < |r| ==> r[j] == VariableFilter(paths[j], data[j], fontPath, floatText)
  {
    seq(|paths|, j requires 0 <= j < |paths| => VariableFilter(paths[j], data[j], fontPath, floatText))
  }

  /** `filterStrings.join(',')`. */
  function FilterComplex(paths: seq<string>, data: seq<VariableData>, fontPath: string,
                         floatText: string -> string): string
    requires |paths| == |data|
  {
    Join(FilterStrings(paths, data, fontPath, floatText), ",")
  }

  /** Each overlay's two passes, rendered: its shadow, then its foreground. */
  function PassPairs(paths: seq<string>, data: seq<VariableData>, fontPath: string,
                     floatText: string -> string): (r: seq<(string, string)>)
    requires |paths| == |data|
    ensures |r| == |paths|
  {
    seq(|paths|, j requires 0 <= j < |paths| =>
      (Render(Shadow(paths[j], data[j], fontPath, floatText)),
       Render(Foreground(paths[j], data[j], fontPath, floatText))))
  }

  /** Every `drawtext` of the chain, in the order FFmpeg applies them. */
  function Passes(paths: seq<string>, data: seq<VariableData>, fontPath: string,
                  floatText: string -> string): seq<string>
    requires |paths| == |data|
  {
    Flatten(PassPairs(paths, data, fontPath, floatText))
  }

  /** The chain has two passes per overlay: overlay `j`'s shadow at `2j`, drawn before its
      foreground at `2j + 1`. */
  lemma PassesAt(paths: seq<string>, data: seq<VariableData>, fontPath: string,
                 floatText: string -> string, j: nat)
    requires |paths| == |data| && j < |paths|
    ensures |Passes(paths, data, fontPath, floatText)| == 2 * |paths|
    ensures Passes(paths, data, fontPath, floatText)[2 * j] == Render(Shadow(paths[j], data[j], fontPath, floatText))
    ensures Passes(paths, data, fontPath, floatText)[2 * j + 1] == Render(Foreground(paths[j], data[j], fontPath, floatText))
  {
    FlattenAt(PassPairs(paths, data, fontPath, floatText), j);
  }

  /** The filter is one flat `,`-separated chain of those passes. */
  lemma FilterComplexIsChain(paths: seq<string>, data: seq<VariableData>,
                             fontPath: string, floatText: string -> string)
    requires |paths| == |data|
    ensures FilterComplex(paths, data, fontPath, floatText) == Join(Passes(paths, data, fontPath, floatText), ",")
  {
    var pairs := PassPairs(paths, data, fontPath, floatText);
    assert FilterStrings(paths, data, fontPath, floatText) == JoinPairs(pairs, ",");
    JoinFlatten(pairs, ",");
  }

  /** `fontSize` as the editor writes it, `{n}px`, becomes `fontsize={n}`. */
  lemma FontSizeOfPixels(p: Position, n: nat)
    requires p.fontSize == NatText(n) + "px"
    ensures FontSizeText(p) == NatText(n)
  {
    ParseIntOfNumeral(n, "px");
  }

  // ------------------------------------------------------------------ writing the text files

  /** The disk after writing `texts[j]` to `paths[j]`, in order. */
  function Stored(files: map<string, FileData>, paths: seq<string>, texts: seq<string>): (r: map<string, FileData>)
    requires |paths| <= |texts|
    ensures forall p :: p in r <==> p in files || p in paths
  {
    if paths == [] then files
    else
      var n := |paths| - 1;
      Stored(files, paths[..n], texts)[paths[n] := TextFile(texts[n])]
  }

  /** With distinct paths, each path holds its own text and everything else is untouched. */
  lemma {:induction false} StoredAt(files: map<string, FileData>, paths: seq<string>, texts: seq<string>)
    requires |paths| <= |texts|
    requires forall i, j :: 0 <= i < j < |paths| ==> paths[i] != paths[j]
    ensures forall j :: 0 <= j < |paths| ==> Stored(files, paths, texts)[paths[j]] == TextFile(texts[j])
    ensures forall p :: p in files && p !in paths ==> Stored(files, paths, texts)[p] == files[p]
  {
    if paths != [] {
      var n := |paths| - 1;
      var prefix := paths[..n];
      StoredAt(files, prefix, texts);
      forall j | 0 <= j < n
        ensures Stored(files, paths, texts)[paths[j]] == TextFile(texts[j])
      {
        assert prefix[j] == paths[j] != paths[n];
      }
      forall p | p in files && p !in paths
        ensures Stored(files, paths, texts)[p] == files[p]
      {
        assert p !in prefix && p != paths[n];
      }
    }
  }

  /** A path none of the writes touched keeps whatever the disk held there. */
  lemma {:induction false} StoredElsewhere(files: map<string, FileData>, paths: seq<string>, texts: seq<string>, p: string)
    requires |paths| <= |texts| && p !in paths
    ensures p in Stored(files, paths, texts) <==> p in files
    ensures p in files ==> Stored(files, paths, texts)[p] == files[p]
  {
    if paths != [] {
      var n := |paths| - 1;
      assert p !in paths[..n] && p != paths[n];
      StoredElsewhere(files, paths[..n], texts, p);
    }
  }

  function TextsOf(variables: seq<Property<VariableData>>): (r: seq<string>)
    ensures |r| == |variables| && forall j :: 0 <= j < |r| ==> r[j] == variables[j].value.value
  {
    seq(|variables|, j requires 0 <= j < |variables| => variables[j].value.value)
  }

  lemma PrefixStep<T>(s: seq<T>, j: nat)
    requires j < |s|
    ensures s[..j + 1] == s[..j] + [s[j]]
  {
  }

  lemma PrefixAll<T>(s: seq<T>)
    ensures s[..|s|] == s
  {
  }

  lemma TextPathsStep(folder: string, ts: nat, iteration: Option<nat>, j: nat)
    ensures TextPaths(folder, ts, iteration, j + 1) == TextPaths(folder, ts, iteration, j) + [TextPath(folder, ts, iteration, j)]
  {
  }

  lemma StoredStep(files: map<string, FileData>, paths: seq<string>, path: string, texts: seq<string>)
    requires |paths| < |texts|
    ensures Stored(files, paths + [path], texts) == Stored(files, paths, texts)[path := TextFile(texts[|paths|])]
  {
    assert (paths + [path])[..|paths|] == paths;
  }

  /** Writes each overlay's text to its own scratch file and builds the filter that draws them
      (the `Promise.all` map, one write at a time): the first failing write stops the rest. The
      paths of the files written so far are returned either way. Each overlay's filter depends
      only on its path and its data, so the filters are built once every write has succeeded. */
  method WriteOverlays(host: Host, folder: string, ts: nat, iteration: Option<nat>,
                       fontPath: string, floatText: string -> string, variables: seq<Property<VariableData>>)
    returns (ok: bool, filterComplex: string, textFilePaths: seq<string>)
    modifies host
    ensures textFilePaths == TextPaths(folder, ts, iteration, |textFilePaths|)
    ensures ok ==> |textFilePaths| == |variables|
    ensures forall j :: 0 <= j < |textFilePaths| ==> host.writeOk(TextPath(folder, ts, iteration, j))
    ensures !ok ==> |textFilePaths| < |variables| &&
                    !host.writeOk(TextPath(folder, ts, iteration, |textFilePaths|))
    ensures ok ==> filterComplex == FilterComplex(textFilePaths, ValuesOf(variables), fontPath, floatText)
    ensures host.files == Stored(old(host.files), textFilePaths, TextsOf(variables))
    ensures ok <==> WritesAllowed(host, folder, ts, iteration, |variables|)
    ensures !ok ==> FirstRefused(host, folder, ts, iteration, |variables|, TextPath(folder, ts, iteration, |textFilePaths|))
  {
    textFilePaths := [];
    var j := 0;
    while j < |variables|
      invariant 0 <= j <= |variables|
      invariant textFilePaths == TextPaths(folder, ts, iteration, j)
      invariant forall i :: 0 <= i < j ==> host.writeOk(TextPath(folder, ts, iteration, i))
      invariant host.files == Stored(old(host.files), textFilePaths, TextsOf(variables))
    {
      var path := TextPath(folder, ts, iteration, j);
      var written := host.WriteFile(path, TextFile(variables[j].value.value));
      if !written {
        return false, "", textFilePaths;
      }
      TextPathsStep(folder, ts, iteration, j);
      StoredStep(old(host.files), textFilePaths, path, TextsOf(variables));
      textFilePaths := textFilePaths + [path];
      j := j + 1;
    }
    var filterStrings := FilterStrings(textFilePaths, ValuesOf(variables), fontPath, floatText);
    ok, filterComplex := true, Join(filterStrings, ",");
  }

  // ------------------------------------------------------------------ which step of a render fails

  /** The writes of the first `n` overlay files are all allowed. */
  predicate WritesAllowed(host: Host, folder: string, ts: nat, iteration: Option<nat>, n: nat) {
    forall j :: 0 <= j < n ==> host.writeOk(TextPath(folder, ts, iteration, j))
  }

  /** `path` is the first of the `n` overlay files whose write is refused. */
  predicate FirstRefused(host: Host, folder: string, ts: nat, iteration: Option<nat>, n: nat, path: string) {
    exists j :: 0 <= j < n && path == TextPath(folder, ts, iteration, j) && !host.writeOk(path) &&
      WritesAllowed(host, folder, ts, iteration, j)
  }

  /** Every step of a render after the download succeeds: the `n` overlay writes, FFmpeg
      running `command` on `disk`, and reading its output back. */
  predicate RenderSucceeds(host: Host, folder: string, ts: nat, iteration: Option<nat>, n: nat,
                           disk: map<string, FileData>, command: FfmpegCommand) {
    && WritesAllowed(host, folder, ts, iteration, n)
    && host.ffmpeg(disk, command).Some?
    && host.readOk(command.output)
  }

  /** `e` names a step of a render after the download, and that step failed while the ones
      before it succeeded: the first refused overlay write, else FFmpeg on `disk`, else reading
      the output back. */
  predicate RenderFailure(host: Host, e: Error, folder: string, ts: nat, iteration: Option<nat>, n: nat,
                          disk: map<string, FileData>, command: FfmpegCommand) {
    || (e.WriteFailed? && FirstRefused(host, folder, ts, iteration, n, e.path))
    || (&& WritesAllowed(host, folder, ts, iteration, n)
        && host.ffmpeg(disk, command).None? && e == RenderFailed(command.output))
    || (&& WritesAllowed(host, folder, ts, iteration, n)
        && host.ffmpeg(disk, command).Some? && !host.readOk(command.output) && e == ReadFailed(command.output))
  }

  /** A render that failed at some step did not have every step succeed, and the failing step is
      named by one error only. */
  lemma RenderFailureExclusive(host: Host, e: Error, e': Error, folder: string, ts: nat,
                                                  iteration: Option<nat>, n: nat, disk: map<string, FileData>,
                                                  command: FfmpegCommand)
    requires RenderFailure(host, e, folder, ts, iteration, n, disk, command)
    ensures !RenderSucceeds(host, folder, ts, iteration, n, disk, command)
    ensures RenderFailure(host, e', folder, ts, iteration, n, disk, command) ==> e' == e
  {
    if e.WriteFailed? && FirstRefused(host, folder, ts, iteration, n, e.path) {
      var j :| 0 <= j < n && e.path == TextPath(folder, ts, iteration, j) && !host.writeOk(e.path) &&
        WritesAllowed(host, folder, ts, iteration, j);
      if e'.WriteFailed? && FirstRefused(host, folder, ts, iteration, n, e'.path) {
        var j' :| 0 <= j' < n && e'.path == TextPath(folder, ts, iteration, j') && !host.writeOk(e'.path) &&
          WritesAllowed(host, folder, ts, iteration, j');
      }
    }
  }
}
