/**
  Merging a partial test-case request over what is stored
  (ResolveTestCaseInput, backend/services/test-cases-service.go) and the object keys the
  result writes.
*/
module TestCaseInput {
  import opened Wrappers
  import opened Text
  import opened Keys
  import opened ObjectReplacer

  datatype Upload = Upload(filename: string, contentType: string, data: string)

  /** What a request says about the input, or about the expected output. */
  datatype SideRequest = SideRequest(kind: Option<string>, text: Option<string>, file: Option<Upload>)

  datatype Request = Request(
    input: SideRequest,
    output: SideRequest,
    showInput: Option<bool>,
    showExpectedOutput: Option<bool>,
    showUserOutput: Option<bool>,
    files: Option<seq<Upload>>)

  datatype Side = Side(kind: string, value: string)

  datatype Fields = Fields(
    input: Side, output: Side, showInput: bool, showExpectedOutput: bool, showUserOutput: bool)

  /** What must be stored: the row, the objects to write, the extra files if they change. */
  datatype Resolved = Resolved(
    fields: Fields, inputObject: Option<Object>, outputObject: Option<Object>, files: Option<seq<Upload>>)

  datatype Problem = TypeRequired | TypeUnknown | ContentRequired

  const TEXT := "text"
  const FILE := "file"

  function TextObject(text: string): Object {
    Object(text, "text/plain; charset=utf-8")
  }

  function FileObject(upload: Upload): Object {
    Object(upload.data, upload.contentType)
  }

  function EffectiveKind(r: SideRequest, stored: Option<Side>): string {
    r.kind.GetOr(if stored.Some? then stored.value.kind else "")
  }

  /** The kind the side will have, which must be a known one: the given one, or else the stored one. */
  method ResolveKind(r: SideRequest, stored: Option<Side>) returns (result: Result<string, Problem>)
    ensures result.Ok? && r.kind.Some? ==> result.value == r.kind.value
    ensures result.Ok? && r.kind.None? ==> stored.Some? && result.value == stored.value.kind
    ensures r.kind.Some? ==> (result.Ok? <==> r.kind.value in {"text", "file"})
    ensures r.kind.None? ==> (result.Ok? <==> stored.Some? && stored.value.kind in {"text", "file"})
    ensures result.Ok? <==> EffectiveKind(r, stored) in {TEXT, FILE}
    ensures result.Ok? ==> result.value == EffectiveKind(r, stored)
    ensures result == Err(TypeRequired) <==> EffectiveKind(r, stored) == ""
  {
    var kind := EffectiveKind(r, stored);
    if kind == "" {
      return Err(TypeRequired);
    }
    if kind != TEXT && kind != FILE {
      return Err(TypeUnknown);
    }
    return Ok(kind);
  }

  /** New content of the kind the case will have. */
  function GivenContent(r: SideRequest, kind: string): Option<Object> {
    if kind == TEXT && r.text.Some? then Some(TextObject(r.text.value))
    else if kind == FILE && r.file.Some? then Some(FileObject(r.file.value))
    else None
  }

  /** A side is accepted when its kind is known and its content is given or already stored in that kind. */
  predicate SideAcceptable(r: SideRequest, stored: Option<Side>) {
    var kind := EffectiveKind(r, stored);
    kind in {TEXT, FILE} && (GivenContent(r, kind).Some? || (stored.Some? && stored.value.kind == kind))
  }

  /** What the row says of a side after the request. */
  function SideAfter(r: SideRequest, stored: Option<Side>): Side
    requires SideAcceptable(r, stored)
  {
    var kind := EffectiveKind(r, stored);
    if kind == TEXT && r.text.Some? then Side(kind, r.text.value)
    else if kind == FILE && r.file.Some? then Side(kind, FileBasename(r.file.value.filename))
    else stored.value
  }

  /** The content part of the merge; the kind was validated before. */
  method ResolveSide(r: SideRequest, kind: string, stored: Option<Side>)
    returns (result: Result<(Side, Option<Object>), Problem>)
    requires kind in {TEXT, FILE} && kind == EffectiveKind(r, stored)
    ensures result.Ok? <==> SideAcceptable(r, stored)
    ensures result.Ok? ==> result.value == (SideAfter(r, stored), GivenContent(r, kind))
  {
    var value := if stored.Some? then stored.value.value else "";
    var content: Option<Object> := None;
    if kind == TEXT {
      if r.text.Some? {
        value, content := r.text.value, Some(TextObject(r.text.value));
      } else if stored.None? || stored.value.kind != TEXT {
        return Err(ContentRequired);
      }
    } else {
      if r.file.Some? {
        value, content := FileBasename(r.file.value.filename), Some(FileObject(r.file.value));
      } else if stored.None? || stored.value.kind != FILE {
        return Err(ContentRequired);
      }
    }
    return Ok((Side(kind, value), content));
  }

  // --- extra files ---------------------------------------------------------------------

  function Renamed(upload: Upload): Upload {
    upload.(filename := FileBasename(upload.filename))
  }

  function RenamedAll(uploads: seq<Upload>): seq<Upload> {
    seq(|uploads|, i requires 0 <= i < |uploads| => Renamed(uploads[i]))
  }

  ghost predicate HasName(files: seq<Upload>, name: string) {
    exists i :: 0 <= i < |files| && files[i].filename == name
  }

  /** The first file of every name. */
  ghost function Deduped(files: seq<Upload>): seq<Upload> {
    if files == [] then []
    else
      var before := Deduped(files[..|files| - 1]);
      var last := files[|files| - 1];
      if HasName(before, last.filename) then before else before + [last]
  }

  ghost predicate IsFirstOfItsName(files: seq<Upload>, file: Upload) {
    exists i :: 0 <= i < |files| && files[i] == file &&
      forall j :: 0 <= j < i ==> files[j].filename != file.filename
  }

  lemma HasNamePrefix(files: seq<Upload>, file: Upload, name: string)
    ensures HasName(files + [file], name) <==> HasName(files, name) || name == file.filename
  {
    if HasName(files, name) {
      var i :| 0 <= i < |files| && files[i].filename == name;
      assert (files + [file])[i].filename == name;
    }
    assert (files + [file])[|files|] == file;
  }

  lemma FirstStaysFirst(files: seq<Upload>, more: Upload, file: Upload)
    ensures IsFirstOfItsName(files, file) ==> IsFirstOfItsName(files + [more], file)
    ensures !HasName(files, more.filename) ==> IsFirstOfItsName(files + [more], more)
  {
    if IsFirstOfItsName(files, file) {
      var i :| 0 <= i < |files| && files[i] == file && forall j :: 0 <= j < i ==> files[j].filename != file.filename;
      assert (files + [more])[i] == file;
    }
    assert (files + [more])[|files|] == more;
  }

  /** Names are distinct, all names are there, and every file is the first of its name. */
  lemma {:induction false} DedupedKeepsFirst(files: seq<Upload>)
    ensures forall i, j :: 0 <= i < j < |Deduped(files)| ==> Deduped(files)[i].filename != Deduped(files)[j].filename
    ensures forall name :: HasName(Deduped(files), name) <==> HasName(files, name)
    ensures forall file :: file in Deduped(files) ==> IsFirstOfItsName(files, file)
  {
    if files != [] {
      var shorter, last := files[..|files| - 1], files[|files| - 1];
      DedupedKeepsFirst(shorter);
      var before := Deduped(shorter);
      assert files == shorter + [last];
      forall name ensures HasName(Deduped(files), name) <==> HasName(files, name) {
        HasNamePrefix(shorter, last, name);
        HasNamePrefix(before, last, name);
      }
      forall file | file in Deduped(files) ensures IsFirstOfItsName(files, file) {
        FirstStaysFirst(shorter, last, file);
      }
    }
  }

  /** The uploads under their base names, of each name the first. */
  ghost predicate FilesAre(uploads: seq<Upload>, files: seq<Upload>) {
    && (forall i, j :: 0 <= i < j < |files| ==> files[i].filename != files[j].filename)
    && (forall i :: 0 <= i < |uploads| ==> HasName(files, FileBasename(uploads[i].filename)))
    && (forall k :: 0 <= k < |files| ==> IsFirstUpload(uploads, files[k]))
  }

  ghost predicate IsFirstUpload(uploads: seq<Upload>, file: Upload) {
    exists i :: 0 <= i < |uploads|
      && file == Upload(FileBasename(uploads[i].filename), uploads[i].contentType, uploads[i].data)
      && forall j :: 0 <= j < i ==> FileBasename(uploads[j].filename) != file.filename
  }

  lemma DedupedFilesAre(uploads: seq<Upload>)
    ensures FilesAre(uploads, Deduped(RenamedAll(uploads)))
  {
    var renamed := RenamedAll(uploads);
    var files := Deduped(renamed);
    DedupedKeepsFirst(renamed);
    forall i | 0 <= i < |uploads| ensures HasName(files, FileBasename(uploads[i].filename)) {
      assert renamed[i].filename == FileBasename(uploads[i].filename);
      assert HasName(renamed, renamed[i].filename);
    }
    forall k | 0 <= k < |files| ensures IsFirstUpload(uploads, files[k]) {
      assert files[k] in files;
      var i :| 0 <= i < |renamed| && renamed[i] == files[k] && forall j :: 0 <= j < i ==> renamed[j].filename != files[k].filename;
      assert forall j :: 0 <= j < i ==> renamed[j].filename == FileBasename(uploads[j].filename);
    }
  }

  /** The loop over the uploads with its set of names seen. */
  method DedupeFiles(uploads: seq<Upload>) returns (files: seq<Upload>)
    ensures files == Deduped(RenamedAll(uploads)) && FilesAre(uploads, files)
  {
    DedupedFilesAre(uploads);
    hide FilesAre, IsFirstUpload, FileBasename;
    ghost var renamed := RenamedAll(uploads);
    files := [];
    var seen: set<string> := {};
    for i := 0 to |uploads|
      invariant files == Deduped(renamed[..i])
      invariant forall name :: name in seen <==> HasName(files, name)
    {
      assert renamed[..i + 1][..i] == renamed[..i];
      var file := Renamed(uploads[i]);
      if file.filename !in seen {
        seen := seen + {file.filename};
        forall name ensures HasName(files + [file], name) <==> HasName(files, name) || name == file.filename {
          HasNamePrefix(files, file, name);
        }
        files := files + [file];
      }
    }
    assert renamed[..|uploads|] == renamed;
  }

  // --- the whole request -----------------------------------------------------------------

  function StoredSide(stored: Option<Fields>, output: bool): Option<Side> {
    if stored.None? then None else Some(if output then stored.value.output else stored.value.input)
  }

  predicate Acceptable(r: Request, stored: Option<Fields>) {
    SideAcceptable(r.input, StoredSide(stored, false)) && SideAcceptable(r.output, StoredSide(stored, true))
  }

  /** The merged side and the object it needs written. */
  ghost predicate SideMerged(r: SideRequest, stored: Option<Side>, side: Side, content: Option<Object>)
    requires SideAcceptable(r, stored)
  {
    && side == SideAfter(r, stored)
    && content == GivenContent(r, side.kind)
    && (stored.None? ==> content.Some?)
  }

  /** The three switches: given, else stored, else the schema's default. */
  ghost predicate SwitchesMerged(r: Request, stored: Option<Fields>, fields: Fields) {
    && fields.showInput == r.showInput.GetOr(stored.None? || stored.value.showInput)
    && fields.showExpectedOutput == r.showExpectedOutput.GetOr(stored.None? || stored.value.showExpectedOutput)
    && fields.showUserOutput == r.showUserOutput.GetOr(stored.None? || stored.value.showUserOutput)
  }

  /** The column and the object of a side: new content of its kind, or else what is stored in that kind. */
  ghost predicate SideIs(r: SideRequest, stored: Option<Side>, side: Side, content: Option<Object>) {
    && (r.kind.Some? ==> side.kind == r.kind.value)
    && (r.kind.None? ==> stored.Some? && side.kind == stored.value.kind)
    && side.kind in {"text", "file"}
    && (side.kind == "text" && r.text.Some? ==>
          side.value == r.text.value && content == Some(Object(r.text.value, "text/plain; charset=utf-8")))
    && (side.kind == "file" && r.file.Some? ==>
          && side.value == FileBasename(r.file.value.filename)
          && content == Some(Object(r.file.value.data, r.file.value.contentType)))
    && ((if side.kind == "text" then r.text.None? else r.file.None?) ==>
          content == None && stored == Some(side))
  }

  /** The kind is not a known one, or there is no content of that kind, given or stored. */
  ghost predicate RefusedAs(kind: string, r: SideRequest, stored: Option<Side>) {
    || kind !in {"text", "file"}
    || (&& (kind == "text" ==> r.text.None?) && (kind == "file" ==> r.file.None?)
        && (stored.None? || stored.value.kind != kind))
  }

  /** A side is refused for the kind the request gives, or else for the stored one; without either always. */
  ghost predicate SideRefused(r: SideRequest, stored: Option<Side>) {
    match (r.kind, stored)
    case (Some(kind), _) => RefusedAs(kind, r, stored)
    case (None, Some(side)) => RefusedAs(side.kind, r, stored)
    case (None, None) => true
  }

  lemma SideRefusedIff(r: SideRequest, stored: Option<Side>)
    ensures SideAcceptable(r, stored) <==> !SideRefused(r, stored)
  {
  }

  lemma SideIsMerged(r: SideRequest, stored: Option<Side>)
    requires SideAcceptable(r, stored)
    ensures SideMerged(r, stored, SideAfter(r, stored), GivenContent(r, EffectiveKind(r, stored)))
  {
  }

  lemma MergedSideIs(r: SideRequest, stored: Option<Side>, side: Side, content: Option<Object>)
    requires SideAcceptable(r, stored) && SideMerged(r, stored, side, content)
    ensures SideIs(r, stored, side, content)
  {
  }

  method ResolveSwitches(r: Request, stored: Option<Fields>, input: Side, output: Side) returns (fields: Fields)
    ensures fields.input == input && fields.output == output && SwitchesMerged(r, stored, fields)
  {
    fields := Fields(input, output, true, true, true);
    if stored.Some? {
      fields := stored.value.(input := input, output := output);
    }
    if r.showInput.Some? {
      fields := fields.(showInput := r.showInput.value);
    }
    if r.showExpectedOutput.Some? {
      fields := fields.(showExpectedOutput := r.showExpectedOutput.value);
    }
    if r.showUserOutput.Some? {
      fields := fields.(showUserOutput := r.showUserOutput.value);
    }
  }

  /**
    A request is accepted exactly when neither side is refused; a given kind and content are
    what the row and the objects get, and what the request leaves out stays as stored.
  */
  method ResolveTestCaseInput(r: Request, stored: Option<Fields>) returns (result: Result<Resolved, Problem>)
    ensures stored.Some? ==>
      (result.Err? <==> SideRefused(r.input, Some(stored.value.input)) || SideRefused(r.output, Some(stored.value.output)))
    ensures stored.None? ==> (result.Err? <==> SideRefused(r.input, None) || SideRefused(r.output, None))
    ensures result.Ok? && stored.Some? ==>
      && SideIs(r.input, Some(stored.value.input), result.value.fields.input, result.value.inputObject)
      && SideIs(r.output, Some(stored.value.output), result.value.fields.output, result.value.outputObject)
    ensures result.Ok? && stored.None? ==>
      && SideIs(r.input, None, result.value.fields.input, result.value.inputObject)
      && SideIs(r.output, None, result.value.fields.output, result.value.outputObject)
    ensures result.Ok? && r.files.Some? ==> result.value.files.Some? && FilesAre(r.files.value, result.value.files.value)
    ensures result.Ok? && r.files.None? ==> result.value.files.None?
    ensures result.Ok? <==> Acceptable(r, stored)
    ensures result.Ok? ==> var v := result.value;
      && SideMerged(r.input, StoredSide(stored, false), v.fields.input, v.inputObject)
      && SideMerged(r.output, StoredSide(stored, true), v.fields.output, v.outputObject)
    ensures result.Ok? ==> SwitchesMerged(r, stored, result.value.fields)
    ensures result.Ok? ==> result.value.files == (if r.files.Some? then Some(Deduped(RenamedAll(r.files.value))) else None)
  {
    hide SideRefused, SideIs, SideMerged, FilesAre;
    SideRefusedIff(r.input, StoredSide(stored, false));
    SideRefusedIff(r.output, StoredSide(stored, true));
    var inputKind := ResolveKind(r.input, StoredSide(stored, false));
    if inputKind.Err? {
      return Err(inputKind.error);
    }
    var outputKind := ResolveKind(r.output, StoredSide(stored, true));
    if outputKind.Err? {
      return Err(outputKind.error);
    }
    var input := ResolveSide(r.input, inputKind.value, StoredSide(stored, false));
    if input.Err? {
      return Err(input.error);
    }
    var output := ResolveSide(r.output, outputKind.value, StoredSide(stored, true));
    if output.Err? {
      return Err(output.error);
    }
    SideIsMerged(r.input, StoredSide(stored, false));
    SideIsMerged(r.output, StoredSide(stored, true));
    MergedSideIs(r.input, StoredSide(stored, false), input.value.0, input.value.1);
    MergedSideIs(r.output, StoredSide(stored, true), output.value.0, output.value.1);
    var fields := ResolveSwitches(r, stored, input.value.0, output.value.0);
    var files: Option<seq<Upload>> := None;
    if r.files.Some? {
      var deduped := DedupeFiles(r.files.value);
      files := Some(deduped);
    }
    return Ok(Resolved(fields, input.value.1, output.value.1, files));
  }

  // --- the keys a resolved request writes ----------------------------------------------------

  function FileWrites(caseId: int, files: seq<Upload>): seq<Write> {
    seq(|files|, i requires 0 <= i < |files| => Write(Named(CaseFileKey(caseId, files[i].filename)), FileObject(files[i])))
  }

  function SideWrites(key: string, content: Option<Object>): seq<Write> {
    if content.Some? then [Write(Named(key), content.value)] else []
  }

  function WritesOf(caseId: int, r: Resolved): seq<Write> {
    SideWrites(CaseInputKey(caseId), r.inputObject) + SideWrites(CaseOutputKey(caseId), r.outputObject)
      + FileWrites(caseId, r.files.GetOr([]))
  }

  /** Two files have different names with the same `key`. */
  ghost predicate Clash(files: seq<Upload>, key: string -> string) {
    exists i, j :: 0 <= i < |files| && 0 <= j < |files|
      && files[i].filename != files[j].filename && key(files[i].filename) == key(files[j].filename)
  }

  /** Two uploads have different base names and one key: the names differ by white space at an end. */
  ghost predicate KeysClash(uploads: seq<Upload>) {
    Clash(RenamedAll(uploads), FileBasename)
  }

  ghost predicate DistinctBy(files: seq<Upload>, key: string -> string) {
    forall i, j :: 0 <= i < j < |files| ==> key(files[i].filename) != key(files[j].filename)
  }

  lemma DedupedDistinctIff(files: seq<Upload>, key: string -> string)
    ensures DistinctBy(Deduped(files), key) <==> !Clash(files, key)
  {
    var kept := Deduped(files);
    DedupedKeepsFirst(files);
    if !DistinctBy(kept, key) {
      var i, j :| 0 <= i < j < |kept| && key(kept[i].filename) == key(kept[j].filename);
      assert IsFirstOfItsName(files, kept[i]) && IsFirstOfItsName(files, kept[j]);
      assert Clash(files, key);
    }
    if Clash(files, key) {
      var a, b :| 0 <= a < |files| && 0 <= b < |files|
        && files[a].filename != files[b].filename && key(files[a].filename) == key(files[b].filename);
      assert HasName(kept, files[a].filename) && HasName(kept, files[b].filename);
      var i :| 0 <= i < |kept| && kept[i].filename == files[a].filename;
      var j :| 0 <= j < |kept| && kept[j].filename == files[b].filename;
      assert key(kept[i].filename) == key(kept[j].filename);
    }
  }

  lemma FileWritesDistinctIff(caseId: int, files: seq<Upload>)
    ensures DistinctKeys(FileWrites(caseId, files)) <==> DistinctBy(files, FileBasename)
  {
    var writes := FileWrites(caseId, files);
    forall i, j | 0 <= i < j < |files|
      ensures writes[i].key == writes[j].key <==> FileBasename(files[i].filename) == FileBasename(files[j].filename)
    {
      CaseKeysDistinct(caseId, caseId, files[i].filename, files[j].filename);
    }
  }

  lemma DistinctParts(front: seq<Write>, back: seq<Write>)
    requires DistinctKeys(front)
    requires forall i, j :: 0 <= i < |front| && 0 <= j < |back| ==> front[i].key != back[j].key
    ensures DistinctKeys(front + back) <==> DistinctKeys(back)
  {
    if DistinctKeys(front + back) {
      forall i, j | 0 <= i < j < |back| ensures back[i].key != back[j].key {
        assert (front + back)[|front| + i] == back[i] && (front + back)[|front| + j] == back[j];
      }
    }
  }

  function BothSides(caseId: int, r: Resolved): seq<Write> {
    SideWrites(CaseInputKey(caseId), r.inputObject) + SideWrites(CaseOutputKey(caseId), r.outputObject)
  }

  lemma SideKeysDistinct(caseId: int, r: Resolved)
    ensures DistinctKeys(BothSides(caseId, r))
  {
    CaseKeysDistinct(caseId, caseId, "", "");
  }

  lemma SideKeysAreNoFileKeys(caseId: int, r: Resolved, files: seq<Upload>)
    ensures forall i, j :: 0 <= i < |BothSides(caseId, r)| && 0 <= j < |files| ==>
      BothSides(caseId, r)[i].key != FileWrites(caseId, files)[j].key
  {
    forall i, j | 0 <= i < |BothSides(caseId, r)| && 0 <= j < |files|
      ensures BothSides(caseId, r)[i].key != FileWrites(caseId, files)[j].key
    {
      CaseKeysDistinct(caseId, caseId, files[j].filename, files[j].filename);
    }
  }

  /**
    The keys an update replaces are pairwise distinct if and only if no two of the uploads
    have different base names with the same key.
  */
  lemma ReplacedKeysDistinctIff(caseId: int, r: Resolved, uploads: seq<Upload>)
    requires r.files == Some(Deduped(RenamedAll(uploads)))
    ensures DistinctKeys(WritesOf(caseId, r)) <==> !KeysClash(uploads)
  {
    var files := r.files.value;
    FileWritesDistinctIff(caseId, files);
    DedupedDistinctIff(RenamedAll(uploads), FileBasename);
    SideKeysDistinct(caseId, r);
    SideKeysAreNoFileKeys(caseId, r, files);
    DistinctParts(BothSides(caseId, r), FileWrites(caseId, files));
  }

  lemma {:induction false} AppliedAtKey(origin: Objects, writes: seq<Write>, i: nat)
    requires i < |writes| && LastOfItsKey(writes, i)
    ensures Get(Applied(origin, writes), writes[i].key) == Some(writes[i].content)
  {
    if i < |writes| - 1 {
      AppliedAtKey(origin, writes[..|writes| - 1], i);
    }
  }

  /** After the writes, each side's object is the resolved content, or what was there before. */
  lemma SidesAreStored(caseId: int, r: Resolved, origin: Objects)
    ensures var after := Applied(origin, WritesOf(caseId, r));
      && Get(after, Named(CaseInputKey(caseId))) == (if r.inputObject.Some? then r.inputObject else Get(origin, Named(CaseInputKey(caseId))))
      && Get(after, Named(CaseOutputKey(caseId))) == (if r.outputObject.Some? then r.outputObject else Get(origin, Named(CaseOutputKey(caseId))))
  {
    hide CaseInputKey, CaseOutputKey, CaseFileKey, Applied;
    var writes, files := WritesOf(caseId, r), r.files.GetOr([]);
    var sides := BothSides(caseId, r);
    CaseKeysDistinct(caseId, caseId, "", "");
    assert writes == sides + FileWrites(caseId, files);
    forall j | |sides| <= j < |writes|
      ensures writes[j].key != Named(CaseInputKey(caseId)) && writes[j].key != Named(CaseOutputKey(caseId))
    {
      CaseKeysDistinct(caseId, caseId, files[j - |sides|].filename, files[j - |sides|].filename);
      assert writes[j] == FileWrites(caseId, files)[j - |sides|];
    }
    assert forall j :: 0 <= j < |sides| ==> writes[j] == sides[j];
    if r.inputObject.Some? {
      AppliedAtKey(origin, writes, 0);
    } else {
      AppliedElsewhere(origin, writes, Named(CaseInputKey(caseId)));
    }
    if r.outputObject.Some? {
      AppliedAtKey(origin, writes, |sides| - 1);
    } else {
      AppliedElsewhere(origin, writes, Named(CaseOutputKey(caseId)));
    }
  }

  /** And each extra file's object is its upload, unless a later one has the same key. */
  lemma FileIsStored(caseId: int, r: Resolved, origin: Objects, i: nat)
    requires r.files.Some? && i < |r.files.value|
    requires forall j :: i < j < |r.files.value| ==>
      CaseFileKey(caseId, r.files.value[j].filename) != CaseFileKey(caseId, r.files.value[i].filename)
    ensures Get(Applied(origin, WritesOf(caseId, r)), Named(CaseFileKey(caseId, r.files.value[i].filename)))
         == Some(Object(r.files.value[i].data, r.files.value[i].contentType))
  {
    hide CaseInputKey, CaseOutputKey, CaseFileKey, Applied;
    var writes, files, sides := WritesOf(caseId, r), r.files.value, BothSides(caseId, r);
    assert writes == sides + FileWrites(caseId, files);
    assert writes[|sides| + i] == FileWrites(caseId, files)[i];
    forall j | |sides| + i < j < |writes| ensures writes[j].key != writes[|sides| + i].key {
      assert writes[j] == FileWrites(caseId, files)[j - |sides|];
    }
    AppliedAtKey(origin, writes, |sides| + i);
  }

  /** A request without extra files never writes a key twice. */
  lemma RequestWithoutFiles(caseId: int, r: Resolved)
    requires r.files.None?
    ensures DistinctKeys(WritesOf(caseId, r))
  {
    SideKeysDistinct(caseId, r);
    assert WritesOf(caseId, r) == BothSides(caseId, r);
  }

  /** Base names without white space at their ends never clash. */
  lemma TrimmedNamesDoNotClash(uploads: seq<Upload>)
    requires forall i :: 0 <= i < |uploads| ==> Trimmed(FileBasename(uploads[i].filename))
    ensures !KeysClash(uploads)
  {
    var files := RenamedAll(uploads);
    forall i | 0 <= i < |uploads| ensures FileBasename(files[i].filename) == files[i].filename {
      BasenameIsBasename(uploads[i].filename);
      BasenameFixpoint(FileBasename(uploads[i].filename));
    }
  }

  /** "dir\\ b" and "b" pass the dedupe as two files and share one key. */
  lemma ClashingUploads(a: string, b: string)
    ensures KeysClash([Upload("dir\\ b", "", a), Upload("b", "", b)])
  {
    var uploads := [Upload("dir\\ b", "", a), Upload("b", "", b)];
    BasenameNotIdempotent();
    BasenameIsBasename("dir\\ b");
    BasenameIsBasename(" b");
    assert FileBasename("b") == "b" by {
      BasenameFixpoint("b");
    }
    var files := RenamedAll(uploads);
    assert files[0].filename == " b" && files[1].filename == "b";
  }
}
