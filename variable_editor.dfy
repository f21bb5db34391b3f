/** The variable editor's state rules: the overlay map a GIF card carries, the `.txt` files the
    user attaches to variables for bulk rendering, and what the editor sends to the render
    endpoints. Rendering, toasts, downloads and the HTTP calls themselves are not part of it. */
module Editor {
  import opened Wrappers
  import opened JsText
  import opened JsObject
  import opened Variables
  import opened Overlay
  import opened GenerateGifRoute

  // ------------------------------------------------------------------ reading a value file

  /** What becomes of one line: nothing when it is blank, else the line trimmed. */
  function Kept(line: string): (r: seq<string>)
    ensures |r| <= 1 && (r == [] <==> IsBlank(line))
    ensures forall j :: 0 <= j < |r| ==> r[j] == Trim(line) && r[j] != [] && IsTrimmed(r[j])
  {
    var t := Trim(line);
    if t == [] then [] else [t]
  }

  /** `lines.map(line => line.trim()).filter(line => line.length > 0)`. */
  function CleanLines(lines: seq<string>): (r: seq<string>)
    ensures |r| <= |lines|
    ensures forall j :: 0 <= j < |r| ==> r[j] != [] && IsTrimmed(r[j])
  {
    if lines == [] then [] else Kept(lines[0]) + CleanLines(lines[1..])
  }

  /** `readFileContent`: the file's text split at each newline, every line trimmed, blank lines dropped. */
  function ReadLines(content: string): (lines: seq<string>)
    ensures forall j :: 0 <= j < |lines| ==> lines[j] != [] && IsTrimmed(lines[j]) && '\n' !in lines[j]
  {
    CleanLinesAvoid(Split(content, '\n'), '\n');
    CleanLines(Split(content, '\n'))
  }

  /** `s.flatMap(f)`: the pieces `f` makes of each element, in order. */
  function FlatMap<T, U>(f: T -> seq<U>, s: seq<T>): seq<U> {
    if s == [] then [] else f(s[0]) + FlatMap(f, s[1..])
  }

  lemma {:induction false} FlatMapConcat<T, U>(f: T -> seq<U>, a: seq<T>, b: seq<T>)
    ensures FlatMap(f, a + b) == FlatMap(f, a) + FlatMap(f, b)
  {
    if a != [] {
      FlatMapConcat(f, a[1..], b);
      assert (a + b)[1..] == a[1..] + b;
      assert (a + b)[0] == a[0];
    } else {
      assert a + b == b;
    }
  }

  /** Cleaning is the flat map of `Kept`. */
  lemma {:induction false} CleanLinesIsFlatMap(lines: seq<string>)
    ensures CleanLines(lines) == FlatMap(Kept, lines)
  {
    if lines != [] {
      CleanLinesIsFlatMap(lines[1..]);
    }
  }

  /** Cleaning works line by line: it keeps the lines' order. */
  lemma CleanLinesConcat(a: seq<string>, b: seq<string>)
    ensures CleanLines(a + b) == CleanLines(a) + CleanLines(b)
  {
    CleanLinesIsFlatMap(a + b);
    CleanLinesIsFlatMap(a);
    CleanLinesIsFlatMap(b);
    FlatMapConcat(Kept, a, b);
  }

  /** One line is kept, trimmed, exactly when it is not blank. */
  lemma CleanLine(line: string)
    ensures CleanLines([line]) == if IsBlank(line) then [] else [Trim(line)]
  {
    assert [line][1..] == [];
    assert Kept(line) + [] == Kept(line);
  }

  /** Lines that are already clean come through unchanged. */
  lemma {:induction false} CleanLinesOfClean(lines: seq<string>)
    requires forall j :: 0 <= j < |lines| ==> lines[j] != [] && IsTrimmed(lines[j])
    ensures CleanLines(lines) == lines
  {
    if lines != [] {
      TrimOfTrimmed(lines[0]);
      assert Kept(lines[0]) == [lines[0]];
      CleanLinesOfClean(lines[1..]);
      assert lines == [lines[0]] + lines[1..];
    }
  }

  /** Trimming never brings in a character the text did not hold. */
  lemma TrimAvoids(s: string, c: char)
    requires c !in s
    ensures c !in Trim(s)
  {
    var t := TrimStart(s);
    var r := TrimEnd(t);
    forall i | 0 <= i < |r| ensures r[i] != c {
      assert r[i] == t[i] == s[|s| - |t| + i];
    }
  }

  lemma {:induction false} CleanLinesAvoid(lines: seq<string>, c: char)
    requires forall j :: 0 <= j < |lines| ==> c !in lines[j]
    ensures forall j :: 0 <= j < |CleanLines(lines)| ==> c !in CleanLines(lines)[j]
  {
    if lines != [] {
      TrimAvoids(lines[0], c);
      CleanLinesAvoid(lines[1..], c);
    }
  }

  /** A file written as one clean line per row reads back as exactly those lines. */
  lemma ReadLinesRoundTrip(lines: seq<string>)
    requires forall j :: 0 <= j < |lines| ==> lines[j] != [] && IsTrimmed(lines[j]) && '\n' !in lines[j]
    ensures ReadLines(Join(lines, "\n")) == lines
  {
    if lines == [] {
      assert Split([], '\n') == [[]];
      assert CleanLines([[]]) == [];
    } else {
      SplitJoin(lines, '\n');
      CleanLinesOfClean(lines);
    }
  }

  /** Reading the lines back out of their own join changes nothing. */
  lemma ReadLinesStable(content: string)
    ensures ReadLines(Join(ReadLines(content), "\n")) == ReadLines(content)
  {
    ReadLinesRoundTrip(ReadLines(content));
  }

  // ------------------------------------------------------------------ attached files and modes

  /** A file the user picked or dropped: its MIME type and its text. */
  datatype UploadFile = UploadFile(name: string, mimeType: string, content: string)

  /** `Object.values(variableFiles).some(file => file !== null)`. */
  predicate HasFiles(files: seq<Property<Option<UploadFile>>>) {
    exists j :: 0 <= j < |files| && files[j].value.Some?
  }

  /** The `fileContents` object the bulk loop builds: for each attached file, in entry order,
      its key set to the file's lines. */
  function FileContents(files: seq<Property<Option<UploadFile>>>): JsObject<seq<string>>
  {
    if files == [] then []
    else
      var last := files[|files| - 1];
      var earlier := FileContents(files[..|files| - 1]);
      if last.value.Some? then Put(earlier, last.key, ReadLines(last.value.value.content)) else earlier
  }

  /** The lines a lookup in `variableFiles` leads to: those of the file, when one is attached. */
  function AttachedLines(entry: Option<Option<UploadFile>>): Option<seq<string>> {
    if entry.Some? && entry.value.Some? then Some(ReadLines(entry.value.value.content)) else None
  }

  predicate DistinctKeys<V>(o: seq<Property<V>>) {
    forall i, j :: 0 <= i < j < |o| ==> o[i].key != o[j].key
  }

  /** Each variable with an attached file maps to that file's lines; no other key is present. */
  lemma {:induction false} FileContentsGet(files: seq<Property<Option<UploadFile>>>, k: string)
    requires DistinctKeys(files)
    ensures Get(FileContents(files), k) == AttachedLines(Get(files, k))
  {
    if files != [] {
      var n := |files| - 1;
      var init, last := files[..n], files[n];
      assert files == init + [last];
      FileContentsGet(init, k);
      GetConcat(init, [last], k);
      GetSingle(last, k);
      if k == last.key {
        forall i | 0 <= i < |init| ensures init[i].key != k {
          assert init[i] == files[i];
        }
      }
    }
  }

  /** The bulk loop produces some lines exactly when some variable has a file. */
  lemma {:induction false} FileContentsEmpty(files: seq<Property<Option<UploadFile>>>)
    ensures FileContents(files) == [] <==> !HasFiles(files)
  {
    if files != [] {
      var n := |files| - 1;
      var init := files[..n];
      FileContentsEmpty(init);
      if files[n].value.Some? {
        var r := FileContents(files);
        assert Get(r, files[n].key).Some?;
        assert HasFiles(files);
      } else {
        assert FileContents(files) == FileContents(init);
        assert HasFiles(files) <==> HasFiles(init) by {
          if HasFiles(files) {
            var j :| 0 <= j < |files| && files[j].value.Some?;
            assert j < n && init[j] == files[j];
          }
          if HasFiles(init) {
            var j :| 0 <= j < n && init[j].value.Some?;
            assert files[j] == init[j];
          }
        }
      }
    }
  }

  /** A well-formed object never repeats a key. */
  lemma ObjectKeysDistinct<V>(o: JsObject<V>)
    ensures DistinctKeys(o)
  {
    forall i, j | 0 <= i < j < |o| ensures o[i].key != o[j].key {
      assert CanFollow(KeysOf(o)[i], KeysOf(o)[j]);
    }
  }

  /** The loop of `handleBulkGeneration` that reads every attached file. */
  method CollectFileContents(files: JsObject<Option<UploadFile>>) returns (fileContents: JsObject<seq<string>>)
    ensures fileContents == FileContents(files)
    ensures forall k :: Get(fileContents, k) == AttachedLines(Get(files, k))
    ensures fileContents == [] <==> !HasFiles(files)
  {
    fileContents := [];
    for j := 0 to |files|
      invariant fileContents == FileContents(files[..j])
    {
      assert files[..j + 1][..j] == files[..j];
      var entry := files[j];
      if entry.value.Some? {
        fileContents := Put(fileContents, entry.key, ReadLines(entry.value.value.content));
      }
    }
    assert files[..|files|] == files;
    ObjectKeysDistinct(files);
    forall k ensures Get(fileContents, k) == AttachedLines(Get(files, k)) {
      FileContentsGet(files, k);
    }
    FileContentsEmpty(files);
  }

  /** What `handleGenerateAndDownload` sends: the single render's request, or the bulk job's body. */
  datatype Submission =
    | SingleSubmission(request: Request)
    | BulkSubmission(videoUrl: string, variables: VariableMap, fileContents: JsObject<seq<string>>,
                     gifName: string)

  // ------------------------------------------------------------------ adding a variable

  /** The property names every plain object inherits from `Object.prototype`. */
  const InheritedNames: set<string> := {
    "constructor", "__defineGetter__", "__defineSetter__", "hasOwnProperty", "__lookupGetter__",
    "__lookupSetter__", "isPrototypeOf", "propertyIsEnumerable", "toString", "valueOf",
    "__proto__", "toLocaleString"
  }

  /** `gif.variables[name]` is truthy: an own variable, or a member inherited from `Object.prototype`. */
  predicate LooksTaken(variables: VariableMap, name: string) {
    Has(variables, name) || name in InheritedNames
  }

  /** The guard as written turns down `toString` on a card that has no such variable. */
  lemma InheritedNameLooksTaken()
    ensures var variables: VariableMap := [];
      LooksTaken(variables, "toString") && !Has(variables, "toString")
  {
  }

  /** The guard refuses a name exactly when the card already has it, or the name is inherited. */
  lemma LooksTakenIff(variables: VariableMap, name: string)
    ensures LooksTaken(variables, name) <==> name in KeysOf(variables) || name in InheritedNames
  {
    HasIff(variables, name);
  }

  /** Where a new variable is drawn: near the centre, white, 68px, not centred horizontally. */
  const DefaultPosition: Position := Position("45%", "45%", "68px", "#ffffff", false)

  /** The overlay a new variable starts as: its own name as the text, at the default position. */
  function NewVariable(name: string): VariableData {
    VariableData(name, DefaultPosition)
  }

  /** The default size reaches the filter as `fontsize=68`. */
  lemma DefaultFontSizeText()
    ensures FontSizeText(DefaultPosition) == "68"
  {
    DefaultFontSize();
    FontSizeOfPixels(DefaultPosition, 68);
  }

  /** The default size prints as the numeral it starts with. */
  lemma DefaultFontSize()
    ensures NatText(68) == "68" && "68px" == NatText(68) + "px"
  {
    assert NatText(6) == "6";
    assert NatText(68) == NatText(6) + [DigitChar(8)];
  }

  /** One edit to a position field, as the editor's inputs make it. */
  datatype PositionEdit =
    | SetTop(top: string)
    | SetLeft(left: string)
    | SetFontSize(fontSize: string)
    | SetColor(color: string)
    | SetHorizontalCenter(center: bool)

  /** `{ ...position, [field]: value }`: the named field takes the value; the others keep theirs. */
  function ApplyEdit(p: Position, e: PositionEdit): (r: Position)
    ensures r.top == (if e.SetTop? then e.top else p.top)
    ensures r.left == (if e.SetLeft? then e.left else p.left)
    ensures r.fontSize == (if e.SetFontSize? then e.fontSize else p.fontSize)
    ensures r.color == (if e.SetColor? then e.color else p.color)
    ensures r.horizontalCenter == (if e.SetHorizontalCenter? then e.center else p.horizontalCenter)
  {
    match e
    case SetTop(v) => p.(top := v)
    case SetLeft(v) => p.(left := v)
    case SetFontSize(v) => p.(fontSize := v)
    case SetColor(v) => p.(color := v)
    case SetHorizontalCenter(v) => p.(horizontalCenter := v)
  }

  // ------------------------------------------------------------------ the editor's state

  /** The component's state: the card's variables, the files attached to them, and the
      add-variable dialog. */
  class VariableEditor {
    /** `gif.url` and `gif.name`. */
    const videoUrl: string
    const gifName: string
    /** `gif.variables`. */
    var variables: VariableMap
    /** `variableFiles`: per variable, the attached file or `null`. */
    var variableFiles: JsObject<Option<UploadFile>>
    var newVariableName: string
    var addDialogOpen: bool

    constructor(initialVariables: VariableMap, videoUrl: string, gifName: string)
      ensures variables == initialVariables && variableFiles == []
      ensures newVariableName == "" && !addDialogOpen
      ensures this.videoUrl == videoUrl && this.gifName == gifName
    {
      this.videoUrl := videoUrl;
      this.gifName := gifName;
      variables := initialVariables;
      variableFiles := [];
      newVariableName := "";
      addDialogOpen := false;
    }

    /** The request every single render sends: the video and the sanitised variables. */
    function SingleRequest(): (r: Request)
      reads this
      ensures r.videoUrl == videoUrl && KeysOf(r.variables) == KeysOf(variables)
      ensures forall j :: 0 <= j < |r.variables| ==> r.variables[j].value.value != []
    {
      Request(videoUrl, SanitizeVariables(variables))
    }

    /** `setIsAddVariableModalOpen(true)`. */
    method OpenAddDialog()
      modifies this
      ensures addDialogOpen
      ensures variables == old(variables) && variableFiles == old(variableFiles)
      ensures newVariableName == old(newVariableName)
    {
      addDialogOpen := true;
    }

    /** The name field's `onChange`. */
    method SetNewVariableName(name: string)
      modifies this
      ensures newVariableName == name
      ensures variables == old(variables) && variableFiles == old(variableFiles)
      ensures addDialogOpen == old(addDialogOpen)
    {
      newVariableName := name;
    }

    /** `handleCloseAddVariableModal`. */
    method CloseAddDialog()
      modifies this
      ensures !addDialogOpen && newVariableName == ""
      ensures variables == old(variables) && variableFiles == old(variableFiles)
    {
      addDialogOpen := false;
      newVariableName := "";
    }

    /** `handleAddVariable`: a blank name or a name the card already has changes nothing;
        otherwise the variable is added with the default overlay and the dialog is reset. */
    method AddVariable() returns (added: bool)
      modifies this
      ensures added <==> !IsBlank(old(newVariableName)) && !Has(old(variables), old(newVariableName))
      ensures added ==> variables == Put(old(variables), old(newVariableName), NewVariable(old(newVariableName)))
      ensures added ==> |variables| == |old(variables)| + 1
      ensures added ==> Get(variables, old(newVariableName)) == Some(NewVariable(old(newVariableName)))
      ensures added ==> forall k :: k != old(newVariableName) ==> Get(variables, k) == Get(old(variables), k)
      ensures added ==> !addDialogOpen && newVariableName == ""
      ensures !added ==> variables == old(variables) && newVariableName == old(newVariableName)
      ensures !added ==> addDialogOpen == old(addDialogOpen)
      ensures variableFiles == old(variableFiles)
    {
      if IsBlank(newVariableName) {
        return false;
      }
      if Has(variables, newVariableName) {
        return false;
      }
      variables := Put(variables, newVariableName, NewVariable(newVariableName));
      addDialogOpen := false;
      newVariableName := "";
      added := true;
    }

    /** `handleDeleteVariable`: the last variable cannot go; otherwise the key leaves both the
        variables and the attached files. */
    method DeleteVariable(key: string) returns (deleted: bool)
      modifies this
      ensures deleted <==> |old(variables)| > 1
      ensures deleted ==> variables == Remove(old(variables), key) && variableFiles == Remove(old(variableFiles), key)
      ensures deleted ==> !Has(variables, key) && !Has(variableFiles, key)
      ensures !deleted ==> variables == old(variables) && variableFiles == old(variableFiles)
      ensures |old(variables)| >= 1 ==> |variables| >= 1
      ensures newVariableName == old(newVariableName) && addDialogOpen == old(addDialogOpen)
    {
      if |variables| <= 1 {
        return false;
      }
      variables := Remove(variables, key);
      variableFiles := Remove(variableFiles, key);
      deleted := true;
    }

    /** `handleVariableChange`: one field of one variable's position changes. A key the card
        lacks makes the update throw, so nothing changes. */
    method VariableChange(key: string, edit: PositionEdit) returns (ok: bool)
      modifies this
      ensures ok <==> Has(old(variables), key)
      ensures ok ==> variables == Put(old(variables), key,
                                      old(Get(variables, key)).value.(position := ApplyEdit(old(Get(variables, key)).value.position, edit)))
      ensures ok ==> KeysOf(variables) == KeysOf(old(variables))
      ensures ok ==> Get(variables, key).value.value == old(Get(variables, key)).value.value
      ensures forall k :: k != key ==> Get(variables, k) == Get(old(variables), k)
      ensures !ok ==> variables == old(variables)
      ensures variableFiles == old(variableFiles)
      ensures newVariableName == old(newVariableName) && addDialogOpen == old(addDialogOpen)
    {
      var current := Get(variables, key);
      if current.None? {
        return false;
      }
      var d := current.value;
      variables := Put(variables, key, d.(position := ApplyEdit(d.position, edit)));
      ok := true;
    }

    /** `handleValueChange`: one variable's text changes, its position stays. */
    method ValueChange(key: string, newValue: string) returns (ok: bool)
      modifies this
      ensures ok <==> Has(old(variables), key)
      ensures ok ==> variables == Put(old(variables), key, old(Get(variables, key)).value.(value := newValue))
      ensures ok ==> KeysOf(variables) == KeysOf(old(variables))
      ensures ok ==> Get(variables, key).value.position == old(Get(variables, key)).value.position
      ensures forall k :: k != key ==> Get(variables, k) == Get(old(variables), k)
      ensures !ok ==> variables == old(variables)
      ensures variableFiles == old(variableFiles)
      ensures newVariableName == old(newVariableName) && addDialogOpen == old(addDialogOpen)
    {
      var current := Get(variables, key);
      if current.None? {
        return false;
      }
      variables := Put(variables, key, current.value.(value := newValue));
      ok := true;
    }

    /** `handleFileChange` and `handleFileDrop`: a chosen file that is not `text/plain` is
        turned down; otherwise the choice (a file, or none) is recorded for the variable. */
    method ChooseFile(key: string, file: Option<UploadFile>) returns (accepted: bool)
      modifies this
      ensures accepted <==> file.None? || file.value.mimeType == "text/plain"
      ensures accepted ==> variableFiles == Put(old(variableFiles), key, file)
      ensures accepted ==> Get(variableFiles, key) == Some(file)
      ensures !accepted ==> variableFiles == old(variableFiles)
      ensures forall k :: k != key ==> Get(variableFiles, k) == Get(old(variableFiles), k)
      ensures variables == old(variables)
      ensures newVariableName == old(newVariableName) && addDialogOpen == old(addDialogOpen)
    {
      if file.Some? && file.value.mimeType != "text/plain" {
        return false;
      }
      variableFiles := Put(variableFiles, key, file);
      accepted := true;
    }

    /** `handleGenerateAndDownload`: bulk mode exactly when some variable has a file attached,
        sending the raw variables and every file's lines; otherwise one sanitised render. */
    method GenerateAndDownload() returns (s: Submission)
      ensures s.BulkSubmission? <==> HasFiles(variableFiles)
      ensures s.SingleSubmission? ==> s.request == SingleRequest()
      ensures s.BulkSubmission? ==>
        s == BulkSubmission(videoUrl, variables, FileContents(variableFiles), gifName) && s.fileContents != []
    {
      if HasFiles(variableFiles) {
        var fileContents := CollectFileContents(variableFiles);
        s := BulkSubmission(videoUrl, variables, fileContents, gifName);
      } else {
        s := SingleSubmission(SingleRequest());
      }
    }
  }
}
