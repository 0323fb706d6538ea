/**
  Test cases as database rows and stored objects kept in step
  (backend/services/test-case-repository.go).

  Object operations and statements may fail, a commit may fail after taking effect, and a
  crash is a run in which every later operation is refused and the open transaction is lost.
  `clean` collects that no failed object operation took effect and that every cleanup
  succeeded.  Edits of one case do not overlap, except in OverlappingUpdates.
*/
module TestCaseRepository {
  import opened Wrappers
  import opened Keys
  import opened ObjectReplacer
  import opened TestCaseInput

  datatype CaseRow = CaseRow(exercise: int, fields: Fields, files: seq<string>)

  datatype Failure = Invalid(problem: Problem) | NotFound | Server

  // --- which objects belong to which case ----------------------------------------------

  ghost predicate Owns(caseId: int, k: Key) {
    || k == Named(CaseInputKey(caseId))
    || k == Named(CaseOutputKey(caseId))
    || exists name :: k == Named(CaseFileKey(caseId, name))
  }

  lemma OwnersAreDistinct(a: int, b: int, k: Key)
    requires Owns(a, k) && Owns(b, k)
    ensures a == b
  {
    if x :| k == Named(CaseFileKey(a, x)) {
      if y :| k == Named(CaseFileKey(b, y)) {
        CaseKeysDistinct(a, b, x, y);
      } else {
        CaseKeysDistinct(b, a, "", x);
      }
    } else if y :| k == Named(CaseFileKey(b, y)) {
      CaseKeysDistinct(a, b, "", y);
    } else {
      CaseKeysDistinct(a, b, "", "");
      CaseKeysDistinct(b, a, "", "");
    }
  }

  ghost predicate FilesAreThere(caseId: int, files: seq<string>, objects: Objects) {
    forall i :: 0 <= i < |files| ==> Named(CaseFileKey(caseId, files[i])) in objects
  }

  /** The input object, the output object and every extra file's object are there. */
  ghost predicate HasObjects(caseId: int, files: seq<string>, objects: Objects) {
    && Named(CaseInputKey(caseId)) in objects
    && Named(CaseOutputKey(caseId)) in objects
    && FilesAreThere(caseId, files, objects)
  }

  ghost predicate EveryCaseHasObjects(rows: map<int, CaseRow>, objects: Objects) {
    forall id :: id in rows ==> HasObjects(id, rows[id].files, objects)
  }

  /** Only objects of `caseId`, and backups, differ. */
  ghost predicate TouchesOnly(caseId: int, before: Objects, after: Objects) {
    forall k: Key :: k.Named? && !Owns(caseId, k) ==> Get(before, k) == Get(after, k)
  }

  lemma NothingTouched(caseId: int, objects: Objects)
    ensures TouchesOnly(caseId, objects, objects)
  {
  }

  lemma TouchedTwice(caseId: int, first: Objects, second: Objects, third: Objects)
    requires TouchesOnly(caseId, first, second) && TouchesOnly(caseId, second, third)
    ensures TouchesOnly(caseId, first, third)
  {
    hide Owns;
  }

  lemma OthersKeepTheirObjects(caseId: int, other: int, files: seq<string>, before: Objects, after: Objects)
    requires TouchesOnly(caseId, before, after) && other != caseId && HasObjects(other, files, before)
    ensures HasObjects(other, files, after)
  {
    forall k | Owns(other, k) ensures !Owns(caseId, k) {
      if Owns(caseId, k) {
        OwnersAreDistinct(caseId, other, k);
      }
    }
    assert Owns(other, Named(CaseInputKey(other))) && Owns(other, Named(CaseOutputKey(other)));
    forall i | 0 <= i < |files| ensures Named(CaseFileKey(other, files[i])) in after {
      assert Owns(other, Named(CaseFileKey(other, files[i])));
    }
  }

  lemma FileWritesAreOwned(caseId: int, files: seq<Upload>)
    ensures forall w :: w in FileWrites(caseId, files) ==> Owns(caseId, w.key)
  {
    forall w | w in FileWrites(caseId, files) ensures Owns(caseId, w.key) {
      var i :| 0 <= i < |files| && w == FileWrites(caseId, files)[i];
      assert w.key == Named(CaseFileKey(caseId, files[i].filename));
    }
  }

  lemma WritesAreOwned(caseId: int, r: Resolved)
    ensures forall k :: k in KeysOf(WritesOf(caseId, r)) ==> Owns(caseId, k)
  {
    var input, output := SideWrites(CaseInputKey(caseId), r.inputObject), SideWrites(CaseOutputKey(caseId), r.outputObject);
    FileWritesAreOwned(caseId, r.files.GetOr([]));
    assert forall w :: w in input ==> w.key == Named(CaseInputKey(caseId));
    assert forall w :: w in output ==> w.key == Named(CaseOutputKey(caseId));
    forall w | w in WritesOf(caseId, r) ensures Owns(caseId, w.key) {
      assert w in input || w in output || w in FileWrites(caseId, r.files.GetOr([]));
    }
    forall k | k in KeysOf(WritesOf(caseId, r)) ensures Owns(caseId, k) {
      var i :| 0 <= i < |WritesOf(caseId, r)| && WritesOf(caseId, r)[i].key == k;
      assert WritesOf(caseId, r)[i] in WritesOf(caseId, r);
    }
  }

  /** The files of the request, each name once under its base name, or none given. */
  ghost predicate Answers(r: Resolved, request: Request) {
    r.files == if request.files.Some? then Some(Deduped(RenamedAll(request.files.value))) else None
  }

  /** What the request and the stored fields ask for. */
  ghost predicate Resolves(r: Resolved, request: Request, stored: Option<Fields>) {
    && SideIs(request.input, if stored.Some? then Some(stored.value.input) else None, r.fields.input, r.inputObject)
    && SideIs(request.output, if stored.Some? then Some(stored.value.output) else None, r.fields.output, r.outputObject)
    && (request.files.Some? ==> r.files.Some? && FilesAre(request.files.value, r.files.value))
    && (request.files.None? ==> r.files.None?)
  }

  /** Its contents are stored: each side's, or what was there before; each file's whose key is not used again or dropped. */
  ghost predicate ContentsStored(caseId: int, r: Resolved, dropped: set<Key>, before: Objects, after: Objects) {
    && Get(after, Named(CaseInputKey(caseId))) == (if r.inputObject.Some? then r.inputObject else Get(before, Named(CaseInputKey(caseId))))
    && Get(after, Named(CaseOutputKey(caseId))) == (if r.outputObject.Some? then r.outputObject else Get(before, Named(CaseOutputKey(caseId))))
    && (r.files.Some? ==> forall i :: 0 <= i < |r.files.value| ==> FileStored(caseId, r.files.value, i, dropped, after))
  }

  ghost predicate FileStored(caseId: int, files: seq<Upload>, i: nat, dropped: set<Key>, after: Objects)
    requires i < |files|
  {
    var key := CaseFileKey(caseId, files[i].filename);
    Named(key) !in dropped && (forall j :: i < j < |files| ==> CaseFileKey(caseId, files[j].filename) != key) ==>
      Get(after, Named(key)) == Some(Object(files[i].data, files[i].contentType))
  }

  lemma WritesStoreContents(caseId: int, r: Resolved, dropped: set<Key>, before: Objects, after: Objects)
    requires SameExcept(Applied(before, WritesOf(caseId, r)), after, dropped)
    requires Named(CaseInputKey(caseId)) !in dropped && Named(CaseOutputKey(caseId)) !in dropped
    ensures ContentsStored(caseId, r, dropped, before, after)
  {
    hide CaseInputKey, CaseOutputKey, CaseFileKey, Applied, WritesOf;
    SidesAreStored(caseId, r, before);
    if r.files.Some? {
      var files := r.files.value;
      forall i | 0 <= i < |files| ensures FileStored(caseId, files, i, dropped, after) {
        if forall j :: i < j < |files| ==> CaseFileKey(caseId, files[j].filename) != CaseFileKey(caseId, files[i].filename) {
          FileIsStored(caseId, r, before, i);
        }
      }
    }
  }

  function Names(files: seq<Upload>): seq<string> {
    seq(|files|, i requires 0 <= i < |files| => files[i].filename)
  }

  /** The files a row names after a resolved request. */
  function FilesOf(stored: seq<string>, r: Resolved): seq<string> {
    if r.files.Some? then Names(r.files.value) else stored
  }

  /** The row a resolved request leaves. */
  function RowAfter(exercise: int, stored: seq<string>, r: Resolved): CaseRow {
    CaseRow(exercise, r.fields, FilesOf(stored, r))
  }

  /** Everything a resolved request writes is there afterwards, and what was there stays. */
  lemma {:induction false} AppliedHasObjects(caseId: int, stored: seq<string>, r: Resolved, origin: Objects)
    requires r.inputObject.Some? || Named(CaseInputKey(caseId)) in origin
    requires r.outputObject.Some? || Named(CaseOutputKey(caseId)) in origin
    requires r.files.Some? || FilesAreThere(caseId, stored, origin)
    ensures HasObjects(caseId, FilesOf(stored, r), Applied(origin, WritesOf(caseId, r)))
  {
    var writes := WritesOf(caseId, r);
    AppliedOnlyAdds(origin, writes);
    var input, output := SideWrites(CaseInputKey(caseId), r.inputObject), SideWrites(CaseOutputKey(caseId), r.outputObject);
    if r.inputObject.Some? {
      assert writes[0].key == Named(CaseInputKey(caseId));
    }
    if r.outputObject.Some? {
      assert writes[|input|].key == Named(CaseOutputKey(caseId));
    }
    if r.files.Some? {
      forall i | 0 <= i < |r.files.value|
        ensures Named(CaseFileKey(caseId, r.files.value[i].filename)) in Applied(origin, writes)
      {
        assert writes[|input + output| + i].key == Named(CaseFileKey(caseId, r.files.value[i].filename));
      }
    }
  }

  // --- object steps -------------------------------------------------------------------------

  /** No live object disappears. */
  ghost predicate Keeps(before: Objects, after: Objects) {
    forall k: Key :: k.Named? && k in before ==> k in after
  }

  ghost function SetOf(keys: seq<Key>): set<Key> {
    set k | k in keys
  }

  /** deleteCaseObjectsBestEffort. */
  method DeleteBestEffort(bucket: Bucket, keys: seq<Key>) returns (ghost clean: bool)
    requires bucket.Valid()
    modifies bucket`objects
    ensures bucket.Valid()
    ensures clean ==> bucket.objects == old(bucket.objects) - SetOf(keys)
    ensures SameExcept(old(bucket.objects), bucket.objects, SetOf(keys))
  {
    clean := true;
    for i := 0 to |keys|
      invariant bucket.Valid()
      invariant clean ==> bucket.objects == old(bucket.objects) - SetOf(keys[..i])
      invariant SameExcept(old(bucket.objects), bucket.objects, SetOf(keys))
    {
      assert SetOf(keys[..i + 1]) == SetOf(keys[..i]) + {keys[i]};
      var removed := bucket.Remove(keys[i]);
      clean := clean && removed.Done?;
    }
    assert keys[..|keys|] == keys;
  }

  method ReplaceSide(replacer: ObjectReplacer, key: string, content: Option<Object>) returns (ok: bool, ghost clean: bool)
    requires replacer.Valid() && replacer.Exact()
    modifies replacer`items, replacer`writes, replacer.bucket
    ensures replacer.Valid() && (clean ==> replacer.Exact()) && (ok ==> clean)
    ensures replacer.writes == old(replacer.writes) + if ok then SideWrites(key, content) else []
    ensures SameExcept(old(replacer.bucket.objects), replacer.bucket.objects, {Named(key)})
    ensures content.None? ==> replacer.bucket.objects == old(replacer.bucket.objects)
    ensures Keeps(old(replacer.bucket.objects), replacer.bucket.objects)
  {
    ok, clean := true, true;
    if content.Some? {
      ghost var put;
      ok, put, clean := replacer.Replace(Named(key), content.value);
    }
  }

  /** One extra file: its object is written, then its row inserted in the open transaction. */
  method ReplaceFile(replacer: ObjectReplacer, w: Write) returns (ok: bool, ghost clean: bool)
    requires replacer.Valid() && replacer.Exact() && w.key.Named?
    modifies replacer`items, replacer`writes, replacer.bucket
    ensures replacer.Valid() && (clean ==> replacer.Exact()) && (ok ==> clean)
    ensures replacer.writes == old(replacer.writes) || replacer.writes == old(replacer.writes) + [w]
    ensures ok ==> replacer.writes == old(replacer.writes) + [w]
    ensures SameExcept(old(replacer.bucket.objects), replacer.bucket.objects, {w.key})
    ensures Keeps(old(replacer.bucket.objects), replacer.bucket.objects)
  {
    ghost var put;
    ok, put, clean := replacer.Replace(w.key, w.content);
    if ok {
      var inserted: bool := *;
      ok := inserted;
    }
  }

  method ReplaceFiles(replacer: ObjectReplacer, writes: seq<Write>) returns (ok: bool, ghost clean: bool)
    requires replacer.Valid() && replacer.Exact()
    requires forall i :: 0 <= i < |writes| ==> writes[i].key.Named?
    modifies replacer`items, replacer`writes, replacer.bucket
    ensures replacer.Valid() && (clean ==> replacer.Exact()) && (ok ==> clean)
    ensures replacer.writes <= old(replacer.writes) + writes
    ensures ok ==> replacer.writes == old(replacer.writes) + writes
    ensures SameExcept(old(replacer.bucket.objects), replacer.bucket.objects, KeysOf(writes))
    ensures Keeps(old(replacer.bucket.objects), replacer.bucket.objects)
  {
    ok, clean := true, true;
    for i := 0 to |writes|
      invariant replacer.Valid() && replacer.Exact() && ok && clean
      invariant replacer.writes == old(replacer.writes) + writes[..i]
      invariant SameExcept(old(replacer.bucket.objects), replacer.bucket.objects, KeysOf(writes))
      invariant Keeps(old(replacer.bucket.objects), replacer.bucket.objects)
    {
      assert writes[..i + 1] == writes[..i] + [writes[i]];
      assert writes[i].key in KeysOf(writes);
      ok, clean := ReplaceFile(replacer, writes[i]);
      if !ok {
        assert writes == writes[..i] + writes[i..] == writes[..i + 1] + writes[i + 1..];
        return;
      }
    }
  }

  /** Everything UpdateTestCase writes before it commits, in its order. */
  method ReplaceObjects(replacer: ObjectReplacer, caseId: int, r: Resolved) returns (ok: bool, ghost clean: bool)
    requires replacer.Valid() && replacer.Exact() && replacer.writes == []
    modifies replacer`items, replacer`writes, replacer.bucket
    ensures replacer.Valid() && (clean ==> replacer.Exact()) && (ok ==> clean)
    ensures replacer.writes <= WritesOf(caseId, r)
    ensures ok ==> replacer.writes == WritesOf(caseId, r)
    ensures TouchesOnly(caseId, old(replacer.bucket.objects), replacer.bucket.objects)
    ensures Keeps(old(replacer.bucket.objects), replacer.bucket.objects)
  {
    assert Owns(caseId, Named(CaseInputKey(caseId))) && Owns(caseId, Named(CaseOutputKey(caseId)));
    ok, clean := ReplaceSide(replacer, CaseInputKey(caseId), r.inputObject);
    if !ok {
      return;
    }
    ok, clean := ReplaceSide(replacer, CaseOutputKey(caseId), r.outputObject);
    if !ok {
      return;
    }
    if r.files.Some? {
      var rowsDeleted: bool := *;
      if !rowsDeleted {
        return false, true;
      }
      var writes := FileWrites(caseId, r.files.value);
      FileWritesAreOwned(caseId, r.files.value);
      assert forall k :: k in KeysOf(writes) ==> Owns(caseId, k) by {
        assert forall i :: 0 <= i < |writes| ==> writes[i] in writes;
      }
      ok, clean := ReplaceFiles(replacer, writes);
    }
  }

  // --- the repository --------------------------------------------------------------------------

  /** Keys of the old files the new list does not name. */
  function DroppedKeys(caseId: int, stored: seq<string>, kept: seq<string>): seq<Key> {
    if stored == [] then []
    else (if stored[0] in kept then [] else [Named(CaseFileKey(caseId, stored[0]))]) + DroppedKeys(caseId, stored[1..], kept)
  }

  /** What the cleanup of an update drops, given the files it had loaded. */
  function DroppedBy(caseId: int, stored: seq<string>, r: Resolved): seq<Key> {
    if r.files.Some? then DroppedKeys(caseId, stored, Names(r.files.value)) else []
  }

  /** The update's cleanup deletes the object of one of `files`. */
  ghost predicate DropsOneOf(caseId: int, stored: seq<string>, r: Resolved, files: seq<string>) {
    exists i :: 0 <= i < |files| && Named(CaseFileKey(caseId, files[i])) in DroppedBy(caseId, stored, r)
  }

  lemma DroppedByIsOwned(caseId: int, stored: seq<string>, r: Resolved)
    ensures forall k :: k in DroppedBy(caseId, stored, r) ==> Owns(caseId, k)
    ensures Named(CaseInputKey(caseId)) !in DroppedBy(caseId, stored, r)
    ensures Named(CaseOutputKey(caseId)) !in DroppedBy(caseId, stored, r)
  {
    if r.files.Some? {
      DroppedKeysAreOwned(caseId, stored, Names(r.files.value));
    }
  }

  /** Deleting what a cleanup drops costs a case an object exactly when it drops one of its files. */
  lemma CleanupKeepsObjectsIff(caseId: int, stored: seq<string>, r: Resolved, files: seq<string>, objects: Objects)
    requires HasObjects(caseId, files, objects)
    ensures HasObjects(caseId, files, objects - SetOf(DroppedBy(caseId, stored, r))) <==> !DropsOneOf(caseId, stored, r, files)
  {
    DroppedByIsOwned(caseId, stored, r);
    var dropped, left := DroppedBy(caseId, stored, r), objects - SetOf(DroppedBy(caseId, stored, r));
    if i :| 0 <= i < |files| && Named(CaseFileKey(caseId, files[i])) in dropped {
      assert Named(CaseFileKey(caseId, files[i])) !in left;
    }
  }

  /** Both updates stored, then both cleaned up. */
  lemma OverlapKeepsObjectsIff(id: int, stored: seq<string>, a: Resolved, b: Resolved, origin: Objects)
    requires HasObjects(id, stored, origin)
    ensures var files := FilesOf(FilesOf(stored, a), b);
      HasObjects(id, files, Applied(Applied(origin, WritesOf(id, a)), WritesOf(id, b))
                            - SetOf(DroppedBy(id, stored, b)) - SetOf(DroppedBy(id, stored, a)))
      <==> !DropsOneOf(id, stored, a, files) && !DropsOneOf(id, stored, b, files)
  {
    hide Applied, DropsOneOf, DroppedBy, FilesOf, WritesOf;
    var files := FilesOf(FilesOf(stored, a), b);
    AppliedHasObjects(id, stored, a, origin);
    var one := Applied(origin, WritesOf(id, a));
    AppliedHasObjects(id, FilesOf(stored, a), b, one);
    var two := Applied(one, WritesOf(id, b));
    CleanupKeepsObjectsIff(id, stored, b, files, two);
    var afterB := two - SetOf(DroppedBy(id, stored, b));
    if HasObjects(id, files, afterB) {
      CleanupKeepsObjectsIff(id, stored, a, files, afterB);
    }
  }

  lemma {:induction false} DroppedKeysAreFileKeys(caseId: int, stored: seq<string>, kept: seq<string>)
    ensures forall k :: k in DroppedKeys(caseId, stored, kept) ==>
      exists name :: name in stored && name !in kept && k == Named(CaseFileKey(caseId, name))
  {
    if stored != [] {
      DroppedKeysAreFileKeys(caseId, stored[1..], kept);
    }
  }

  lemma DroppedKeysAreOwned(caseId: int, stored: seq<string>, kept: seq<string>)
    ensures forall k :: k in DroppedKeys(caseId, stored, kept) ==> Owns(caseId, k)
    ensures Named(CaseInputKey(caseId)) !in DroppedKeys(caseId, stored, kept)
    ensures Named(CaseOutputKey(caseId)) !in DroppedKeys(caseId, stored, kept)
  {
    DroppedKeysAreFileKeys(caseId, stored, kept);
    forall name ensures CaseFileKey(caseId, name) != CaseInputKey(caseId) && CaseFileKey(caseId, name) != CaseOutputKey(caseId) {
      CaseKeysDistinct(caseId, caseId, name, name);
    }
  }

  lemma PrefixKeysDistinct(prefix: seq<Write>, writes: seq<Write>)
    requires prefix <= writes && DistinctKeys(writes)
    ensures DistinctKeys(prefix)
  {
    forall i, j | 0 <= i < j < |prefix| ensures prefix[i].key != prefix[j].key {
      assert writes[i].key != writes[j].key;
    }
  }

  lemma PrefixKeysOwned(caseId: int, prefix: seq<Write>, r: Resolved)
    requires prefix <= WritesOf(caseId, r)
    ensures forall k :: k in KeysOf(prefix) ==> Owns(caseId, k)
  {
    WritesAreOwned(caseId, r);
    forall k | k in KeysOf(prefix) ensures k in KeysOf(WritesOf(caseId, r)) {
      var i :| 0 <= i < |prefix| && prefix[i].key == k;
      assert WritesOf(caseId, r)[i].key == k;
    }
  }

  /** Whatever is there was there before, unchanged. */
  ghost predicate LeavesNothingNew(before: Objects, after: Objects) {
    forall k :: k in after ==> Get(before, k) == Get(after, k)
  }

  function KeyList(writes: seq<Write>): seq<Key> {
    seq(|writes|, i requires 0 <= i < |writes| => writes[i].key)
  }

  lemma KeyListIsKeys(writes: seq<Write>)
    ensures SetOf(KeyList(writes)) == KeysOf(writes)
  {
    forall k ensures k in SetOf(KeyList(writes)) <==> k in KeysOf(writes) {
      if i :| 0 <= i < |writes| && writes[i].key == k {
        assert KeyList(writes)[i] == k;
      }
    }
  }

  /** Deleting every key written leaves the original store without those keys. */
  lemma WrittenThenDeleted(before: Objects, writes: seq<Write>)
    ensures Applied(before, writes) - SetOf(KeyList(writes)) == before - SetOf(KeyList(writes))
  {
    var keys := SetOf(KeyList(writes));
    forall k ensures Get(Applied(before, writes) - keys, k) == Get(before - keys, k) {
      if k !in keys {
        forall i | 0 <= i < |writes| ensures writes[i].key != k {
          assert KeyList(writes)[i] in keys;
        }
        AppliedElsewhere(before, writes, k);
      }
    }
    SameEverywhere(Applied(before, writes) - keys, before - keys);
  }

  /**
    The uploads of a new case in order; after each extra file its row is inserted, which may
    fail too.  `uploaded` counts the writes that succeeded.
  */
  method UploadAll(bucket: Bucket, writes: seq<Write>) returns (ok: bool, uploaded: nat, ghost clean: bool)
    requires bucket.Valid() && forall i :: 0 <= i < |writes| ==> writes[i].key.Named?
    modifies bucket
    ensures bucket.Valid() && uploaded <= |writes|
    ensures ok ==> uploaded == |writes| && clean
    ensures clean ==> bucket.objects == Applied(old(bucket.objects), writes[..uploaded])
    ensures SameExcept(old(bucket.objects), bucket.objects, KeysOf(writes))
  {
    ok, uploaded, clean := true, 0, true;
    while uploaded < |writes|
      invariant bucket.Valid() && uploaded <= |writes|
      invariant bucket.objects == Applied(old(bucket.objects), writes[..uploaded])
      invariant SameExcept(old(bucket.objects), bucket.objects, KeysOf(writes))
    {
      assert writes[..uploaded + 1][..uploaded] == writes[..uploaded];
      assert writes[uploaded].key in KeysOf(writes);
      var put := bucket.Put(writes[uploaded].key, writes[uploaded].content);
      if !put.Done? {
        return false, uploaded, put.Refused?;
      }
      uploaded := uploaded + 1;
      var inserted: bool := *;
      if !inserted {
        return false, uploaded, true;
      }
    }
  }

  function FileKeys(caseId: int, files: seq<string>): seq<Key> {
    seq(|files|, i requires 0 <= i < |files| => Named(CaseFileKey(caseId, files[i])))
  }

  /** All keys of a case. */
  function CaseKeys(caseId: int, files: seq<string>): seq<Key> {
    [Named(CaseInputKey(caseId)), Named(CaseOutputKey(caseId))] + FileKeys(caseId, files)
  }

  lemma CaseKeysAreOwned(caseId: int, files: seq<string>)
    ensures forall k :: k in SetOf(CaseKeys(caseId, files)) ==> Owns(caseId, k)
  {
    forall k | k in FileKeys(caseId, files) ensures Owns(caseId, k) {
      var i :| 0 <= i < |files| && FileKeys(caseId, files)[i] == k;
      assert k == Named(CaseFileKey(caseId, files[i]));
    }
  }

  lemma ExactIsLive(items: seq<Item>, origin: Objects, writes: seq<Write>, objects: Objects)
    requires Logs(items, origin, writes, objects) && Matches(items, origin, writes, objects)
    ensures SameExcept(Applied(origin, writes), objects, {})
  {
    hide Applied;
    LiveAndBackupKeys(items, origin, writes, objects);
  }

  /** Removing backups afterwards changes nothing live. */
  lemma LiveStays(id: int, before: Objects, stored: Objects, now: Objects)
    requires SameExcept(stored, now, {})
    ensures TouchesOnly(id, before, stored) ==> TouchesOnly(id, before, now)
    ensures Keeps(before, stored) ==> Keeps(before, now)
    ensures SameExcept(before, stored, {}) ==> SameExcept(before, now, {})
  {
    if Keeps(before, stored) {
      forall k: Key | k.Named? && k in before ensures k in now {
        assert Get(stored, k) == Get(now, k);
      }
    }
  }

  class CaseRepository {
    const bucket: Bucket
    var rows: map<int, CaseRow>
    var nextId: int

    /** The sequence behind the ids never hands one out twice. */
    ghost predicate Valid()
      reads this, bucket
    {
      bucket.Valid() && forall id :: id in rows ==> id < nextId
    }

    constructor (bucket: Bucket)
      requires bucket.Valid()
      ensures this.bucket == bucket && rows == map[] && Valid()
    {
      this.bucket, rows, nextId := bucket, map[], 1;
    }

    method RestoreObjects(replacer: ObjectReplacer, caseId: int, ghost r: Resolved) returns (ghost clean: bool)
      requires replacer.Valid() && replacer.bucket == bucket && replacer.writes <= WritesOf(caseId, r)
      requires TouchesOnly(caseId, replacer.origin, bucket.objects) && Keeps(replacer.origin, bucket.objects)
      modifies replacer`items, replacer`writes, bucket
      ensures bucket.Valid()
      ensures TouchesOnly(caseId, replacer.origin, bucket.objects) && Keeps(replacer.origin, bucket.objects)
      ensures old(replacer.Exact()) && clean ==> bucket.objects == Undone(replacer.origin, old(replacer.writes))
      ensures old(replacer.Exact()) && clean && DistinctKeys(WritesOf(caseId, r)) ==> bucket.objects == replacer.origin
    {
      PrefixKeysOwned(caseId, replacer.writes, r);
      if DistinctKeys(WritesOf(caseId, r)) {
        PrefixKeysDistinct(replacer.writes, WritesOf(caseId, r));
        DistinctKeysUndoExactly(replacer.origin, replacer.writes);
      }
      clean := replacer.Restore();
    }

    /**
      UpdateTestCase from the first object write to the end of its transaction: nothing live
      is lost; success stores exactly the writes; a failure whose undo succeeds changes no
      object, given distinct keys, also when the commit took effect after all.
    */
    method ReplaceAndCommit(id: int, row: CaseRow, r: Resolved) returns (commit: Outcome, ghost clean: bool)
      requires Valid() && id in rows
      modifies this`rows, bucket
      ensures Valid()
      ensures rows == if commit.Refused? then old(rows) else old(rows)[id := row]
      ensures TouchesOnly(id, old(bucket.objects), bucket.objects) && Keeps(old(bucket.objects), bucket.objects)
      ensures commit.Done? ==> SameExcept(Applied(old(bucket.objects), WritesOf(id, r)), bucket.objects, {})
      ensures commit.Done? && clean ==> bucket.objects == Applied(old(bucket.objects), WritesOf(id, r))
      ensures !commit.Done? && clean && DistinctKeys(WritesOf(id, r)) ==> bucket.objects == old(bucket.objects)
      ensures commit.DoneButReportedFailed? && clean ==> bucket.objects == Undone(old(bucket.objects), WritesOf(id, r))
    {
      hide KeysOf, Matches, Logs, DistinctKeys, Undone, Applied, WritesOf, SameExcept, TouchesOnly, Keeps;
      var replacer := new ObjectReplacer(bucket);
      var ok: bool;
      ok, clean := ReplaceObjects(replacer, id, r);
      if !ok {
        ghost var undone := RestoreObjects(replacer, id, r);
        return Refused, clean && undone;
      }
      commit := *;
      if !commit.Refused? {
        rows := rows[id := row];
      }
      if !commit.Done? {
        clean := RestoreObjects(replacer, id, r);
      } else {
        ghost var stored := bucket.objects;
        ExactIsLive(replacer.items, replacer.origin, replacer.writes, stored);
        clean := replacer.Discard();
        LiveStays(id, replacer.origin, stored, bucket.objects);
        LiveStays(id, Applied(replacer.origin, WritesOf(id, r)), stored, bucket.objects);
      }
    }

    /** What an edit of `id` leaves of the other cases. */
    ghost predicate OthersUntouched(id: int, before: map<int, CaseRow>, beforeObjects: Objects)
      reads this, bucket
    {
      && rows - {id} == before - {id}
      && TouchesOnly(id, beforeObjects, bucket.objects)
    }

    /** Drops the objects of the old files the new list does not name. */
    method DropOldFiles(id: int, stored: seq<string>, kept: seq<string>) returns (ghost clean: bool)
      requires bucket.Valid()
      modifies bucket`objects
      ensures bucket.Valid() && TouchesOnly(id, old(bucket.objects), bucket.objects)
      ensures SameExcept(old(bucket.objects), bucket.objects, SetOf(DroppedKeys(id, stored, kept)))
      ensures clean ==> bucket.objects == old(bucket.objects) - SetOf(DroppedKeys(id, stored, kept))
    {
      DroppedKeysAreOwned(id, stored, kept);
      clean := DeleteBestEffort(bucket, DroppedKeys(id, stored, kept));
    }

    /** UpdateTestCase up to its transaction: the request resolved, and the stored files as they are now. */
    method LoadForUpdate(exercise: int, id: int, request: Request)
      returns (loaded: Result<(Resolved, seq<string>), Failure>)
      ensures id !in rows || rows[id].exercise != exercise ==> loaded.Err?
      ensures loaded.Ok? ==>
        && id in rows && rows[id].exercise == exercise && loaded.value.1 == rows[id].files
        && Acceptable(request, Some(rows[id].fields)) && Answers(loaded.value.0, request)
        && Resolves(loaded.value.0, request, Some(rows[id].fields))
    {
      var allowed: bool, filesRead: bool := *, *;
      if !allowed || id !in rows || rows[id].exercise != exercise {
        return Err(NotFound);
      }
      var resolved := ResolveTestCaseInput(request, Some(rows[id].fields));
      if resolved.Err? {
        return Err(Invalid(resolved.error));
      }
      if !filesRead {
        return Err(Server);
      }
      loaded := Ok((resolved.value, rows[id].files));
    }

    /** The end of UpdateTestCase: new files were given, so the old ones not among them go. */
    method CleanUpAfterUpdate(id: int, stored: seq<string>, r: Resolved) returns (ghost clean: bool)
      requires bucket.Valid()
      modifies bucket`objects
      ensures bucket.Valid() && TouchesOnly(id, old(bucket.objects), bucket.objects)
      ensures SameExcept(old(bucket.objects), bucket.objects, SetOf(DroppedBy(id, stored, r)))
      ensures clean ==> bucket.objects == old(bucket.objects) - SetOf(DroppedBy(id, stored, r))
    {
      clean := true;
      if r.files.Some? {
        clean := DropOldFiles(id, stored, Names(r.files.value));
      }
    }

    /**
      UpdateTestCase.  The row changes exactly when the commit took effect; other cases keep
      rows and objects; success stores the writes and drops the files no longer named; a
      failure whose undo succeeds leaves every object as it was, given distinct keys.
    */
    method UpdateTestCase(exercise: int, id: int, request: Request)
      returns (result: Result<Resolved, Failure>, ghost commit: Outcome, ghost r: Option<Resolved>, ghost clean: bool)
      requires Valid()
      modifies this`rows, bucket
      ensures Valid() && OthersUntouched(id, old(rows), old(bucket.objects))
      ensures result.Ok? <==> commit.Done?
      ensures result.Ok? ==> r == Some(result.value)
      ensures id !in old(rows) || old(rows)[id].exercise != exercise ==> result.Err?
      ensures commit.Refused? ==> rows == old(rows)
      ensures !commit.Refused? ==>
        id in old(rows) && r.Some? && rows == old(rows)[id := RowAfter(exercise, old(rows)[id].files, r.value)]
      ensures result.Ok? ==> Acceptable(request, Some(old(rows)[id].fields))
      ensures result.Ok? ==> rows[id].exercise == exercise
      ensures result.Ok? ==> rows[id].fields == result.value.fields && Resolves(result.value, request, Some(old(rows)[id].fields))
      ensures result.Ok? ==> ContentsStored(
        id, result.value, SetOf(DroppedBy(id, old(rows)[id].files, result.value)), old(bucket.objects), bucket.objects)
      ensures r.Some? ==> Answers(r.value, request)
      ensures result.Ok? && clean ==>
        bucket.objects == Applied(old(bucket.objects), WritesOf(id, r.value)) - SetOf(DroppedBy(id, old(rows)[id].files, r.value))
      ensures result.Ok? ==> SameExcept(Applied(old(bucket.objects), WritesOf(id, r.value)), bucket.objects,
                                        SetOf(DroppedBy(id, old(rows)[id].files, r.value)))
      ensures result.Err? ==> Keeps(old(bucket.objects), bucket.objects)
      ensures result.Err? && clean && (r.Some? ==> DistinctKeys(WritesOf(id, r.value))) ==> bucket.objects == old(bucket.objects)
      ensures commit.DoneButReportedFailed? && clean ==>
        bucket.objects == Undone(old(bucket.objects), WritesOf(id, r.value))
    {
      hide DistinctKeys, Undone, Acceptable, KeysOf, Resolves, ContentsStored;
      commit, r, clean := Refused, None, true;
      var loaded := LoadForUpdate(exercise, id, request);
      if loaded.Err? {
        return Err(loaded.error), commit, r, clean;
      }
      // Beginning the transaction, the row update, the limits.
      var begun: bool := *;
      if !begun {
        return Err(Server), commit, r, clean;
      }
      var (resolved, stored) := loaded.value;
      r := Some(resolved);
      var committed, replaced := ReplaceAndCommit(id, RowAfter(exercise, stored, resolved), resolved);
      commit, clean := committed, replaced;
      if !committed.Done? {
        return Err(Server), commit, r, clean;
      }
      ghost var dropped := CleanUpAfterUpdate(id, stored, resolved);
      DroppedByIsOwned(id, stored, resolved);
      WritesStoreContents(id, resolved, SetOf(DroppedBy(id, stored, resolved)), old(bucket.objects), bucket.objects);
      return Ok(resolved), commit, r, clean && dropped;
    }

    /**
      Two updates of one case that overlap.  Both have loaded the row and its files; their
      transactions run one after the other, as both lock the row; the later one cleans up
      first.  When both succeed, the row names the files of the later one, or those of the
      earlier one if it gave none, and they all have their objects if and only if the earlier
      one's cleanup drops none of them and its own does not either.
    */
    method OverlappingUpdates(exercise: int, id: int, first: Request, second: Request)
      returns (both: bool, ghost a: Option<Resolved>, ghost b: Option<Resolved>, ghost clean: bool)
      requires Valid()
      modifies this`rows, bucket
      ensures Valid() && OthersUntouched(id, old(rows), old(bucket.objects))
      ensures both ==> id in old(rows) && a.Some? && b.Some? && Answers(a.value, first) && Answers(b.value, second)
      ensures both ==> id in rows && rows[id].files == FilesOf(FilesOf(old(rows)[id].files, a.value), b.value)
      ensures both && clean && HasObjects(id, old(rows)[id].files, old(bucket.objects)) ==>
        (HasObjects(id, rows[id].files, bucket.objects)
         <==> !DropsOneOf(id, old(rows)[id].files, a.value, rows[id].files)
              && !DropsOneOf(id, old(rows)[id].files, b.value, rows[id].files))
    {
      hide DistinctKeys, Undone, Acceptable, KeysOf, HasObjects, DropsOneOf, SetOf, Resolves;
      hide Applied, WritesOf, TouchesOnly, SameExcept, Keeps, DroppedBy, Answers, FilesOf;
      both, a, b, clean := false, None, None, true;
      ghost var origin := bucket.objects;
      NothingTouched(id, origin);
      var one := LoadForUpdate(exercise, id, first);
      var two := LoadForUpdate(exercise, id, second);
      if one.Err? || two.Err? {
        return;
      }
      var (ra, stored) := one.value;
      var (rb, _) := two.value;
      a, b := Some(ra), Some(rb);
      var doneA, cleanA := ReplaceAndCommit(id, RowAfter(exercise, stored, ra), ra);
      if !doneA.Done? {
        return;
      }
      ghost var afterA := bucket.objects;
      var doneB, cleanB := ReplaceAndCommit(id, RowAfter(exercise, rows[id].files, rb), rb);
      if !doneB.Done? {
        TouchedTwice(id, origin, afterA, bucket.objects);
        return;
      }
      TouchedTwice(id, origin, afterA, bucket.objects);
      ghost var afterB := bucket.objects;
      ghost var dropB := CleanUpAfterUpdate(id, stored, rb);
      TouchedTwice(id, origin, afterB, bucket.objects);
      ghost var cleanedB := bucket.objects;
      ghost var dropA := CleanUpAfterUpdate(id, stored, ra);
      TouchedTwice(id, origin, cleanedB, bucket.objects);
      both, clean := true, cleanA && cleanB && dropA && dropB;
      if clean && HasObjects(id, stored, old(bucket.objects)) {
        OverlapKeepsObjectsIff(id, stored, ra, rb, old(bucket.objects));
      }
    }

    /**
      CreateTestCase: the row is inserted first, for the id in the keys; the objects are
      uploaded; then the transaction commits.  A failure removes what was uploaded, and the
      commit that took effect but reported a failure is treated as one.
    */
    method CreateTestCase(exercise: int, request: Request)
      returns (result: Result<int, Failure>, ghost commit: Outcome, ghost r: Option<Resolved>, ghost clean: bool)
      requires Valid()
      modifies this, bucket
      ensures Valid() && OthersUntouched(old(nextId), old(rows), old(bucket.objects))
      ensures result.Ok? <==> commit.Done?
      ensures result.Ok? ==> result.value == old(nextId)
      ensures commit.Refused? ==> rows == old(rows)
      ensures !commit.Refused? ==> r.Some? && rows == old(rows)[old(nextId) := RowAfter(exercise, [], r.value)]
      ensures r.Some? ==> Acceptable(request, None)
      ensures r.Some? ==> r.value.inputObject.Some? && r.value.outputObject.Some?
      ensures r.Some? ==> Answers(r.value, request) && Resolves(r.value, request, None)
      ensures result.Ok? ==> rows[old(nextId)].exercise == exercise && rows[old(nextId)].fields == r.value.fields
      ensures result.Ok? ==> ContentsStored(old(nextId), r.value, {}, old(bucket.objects), bucket.objects)
      ensures result.Ok? ==> bucket.objects == Applied(old(bucket.objects), WritesOf(old(nextId), r.value))
      ensures commit.DoneButReportedFailed? && clean ==>
        bucket.objects == old(bucket.objects) - KeysOf(WritesOf(old(nextId), r.value))
      ensures result.Err? && clean ==> LeavesNothingNew(old(bucket.objects), bucket.objects)
    {
      commit, r, clean := Refused, None, true;
      var allowed: bool, begun: bool, inserted: bool, limited: bool := *, *, *, *;
      if !allowed {
        return Err(NotFound), Refused, None, true;
      }
      var resolved := ResolveTestCaseInput(request, None);
      if resolved.Err? {
        return Err(Invalid(resolved.error)), Refused, None, true;
      }
      if !begun {
        return Err(Server), Refused, None, true;
      }
      var id := nextId;
      nextId := nextId + 1;
      if !inserted || !limited {
        return Err(Server), Refused, None, true;
      }
      r := Some(resolved.value);
      var committed: Outcome;
      committed, clean := UploadAndCommit(id, RowAfter(exercise, [], resolved.value), resolved.value);
      if committed.Done? {
        WritesStoreContents(id, resolved.value, {}, old(bucket.objects), bucket.objects);
      }
      commit := committed;
      result := if committed.Done? then Ok(id) else Err(Server);
    }

    method DeleteUploads(writes: seq<Write>, uploaded: nat, ghost before: Objects) returns (ghost clean: bool)
      requires Valid() && uploaded <= |writes| && SameExcept(before, bucket.objects, KeysOf(writes))
      modifies bucket`objects
      ensures Valid() && SameExcept(before, bucket.objects, KeysOf(writes))
      ensures clean && old(bucket.objects) == Applied(before, writes[..uploaded]) ==>
        bucket.objects == before - SetOf(KeyList(writes[..uploaded]))
    {
      WrittenThenDeleted(before, writes[..uploaded]);
      forall k | k in SetOf(KeyList(writes[..uploaded])) ensures k in KeysOf(writes) {
        var i :| 0 <= i < uploaded && KeyList(writes[..uploaded])[i] == k;
        assert writes[i].key == k;
      }
      clean := DeleteBestEffort(bucket, KeyList(writes[..uploaded]));
    }

    /** CreateTestCase from the first upload to the end of its transaction. */
    method UploadAndCommit(id: int, row: CaseRow, r: Resolved) returns (commit: Outcome, ghost clean: bool)
      requires Valid() && id !in rows && id < nextId
      modifies this`rows, bucket
      ensures Valid()
      ensures rows == if commit.Refused? then old(rows) else old(rows)[id := row]
      ensures TouchesOnly(id, old(bucket.objects), bucket.objects)
      ensures commit.Done? ==> bucket.objects == Applied(old(bucket.objects), WritesOf(id, r))
      ensures commit.DoneButReportedFailed? && clean ==> bucket.objects == old(bucket.objects) - KeysOf(WritesOf(id, r))
      ensures !commit.Done? && clean ==> LeavesNothingNew(old(bucket.objects), bucket.objects)
    {
      WritesAreOwned(id, r);
      var writes := WritesOf(id, r);
      assert forall i :: 0 <= i < |writes| ==> writes[i].key in KeysOf(writes);
      var ok: bool, uploaded: nat;
      ok, uploaded, clean := UploadAll(bucket, writes);
      assert writes[..|writes|] == writes;
      KeyListIsKeys(writes);
      if !ok {
        ghost var swept := DeleteUploads(writes, uploaded, old(bucket.objects));
        return Refused, clean && swept;
      }
      commit := *;
      if !commit.Refused? {
        rows := rows[id := row];
      }
      if !commit.Done? {
        clean := DeleteUploads(writes, uploaded, old(bucket.objects));
      }
    }

    /** DeleteTestCase: the row goes first, then its objects, as far as that works. */
    method DeleteTestCase(exercise: int, id: int) returns (failure: Option<Failure>, ghost clean: bool)
      requires Valid()
      modifies this`rows, bucket`objects
      ensures Valid() && OthersUntouched(id, old(rows), old(bucket.objects))
      ensures id in rows ==> rows == old(rows) && bucket.objects == old(bucket.objects)
      ensures failure.None? ==> id in old(rows) && old(rows)[id].exercise == exercise && id !in rows
      ensures id in old(rows) && old(rows)[id].exercise != exercise ==> id in rows
      ensures failure.None? && clean ==> bucket.objects == old(bucket.objects) - SetOf(CaseKeys(id, old(rows)[id].files))
      ensures failure.None? && clean ==>
        && Named(CaseInputKey(id)) !in bucket.objects && Named(CaseOutputKey(id)) !in bucket.objects
        && forall name :: name in old(rows)[id].files ==> Named(CaseFileKey(id, name)) !in bucket.objects
    {
      clean := true;
      var allowed: bool, loaded: bool, deleted: Outcome, counted: bool := *, *, *, *;
      if !allowed {
        return Some(NotFound), true;
      }
      if !loaded {
        return Some(Server), true;
      }
      var stored := if id in rows then rows[id].files else [];
      var affected := id in rows && rows[id].exercise == exercise;
      if !deleted.Refused? && affected {
        rows := rows - {id};
      }
      if !deleted.Done? || !counted {
        return Some(Server), true;
      }
      if !affected {
        return Some(NotFound), true;
      }
      CaseKeysAreOwned(id, stored);
      clean := DeleteBestEffort(bucket, CaseKeys(id, stored));
      forall name | name in stored ensures Named(CaseFileKey(id, name)) in SetOf(CaseKeys(id, stored)) {
        var i :| 0 <= i < |stored| && stored[i] == name;
        assert CaseKeys(id, stored)[2 + i] == Named(CaseFileKey(id, name));
      }
      assert CaseKeys(id, stored)[0] in SetOf(CaseKeys(id, stored)) && CaseKeys(id, stored)[1] in SetOf(CaseKeys(id, stored));
      failure := None;
    }
  }

  // --- every reachable state -------------------------------------------------------------------

  lemma UpdateKeepsObjects(id: int, stored: seq<string>, r: Resolved, origin: Objects, after: Objects)
    requires HasObjects(id, stored, origin) && !DropsOneOf(id, stored, r, FilesOf(stored, r))
    requires SameExcept(Applied(origin, WritesOf(id, r)), after, SetOf(DroppedBy(id, stored, r)))
    ensures HasObjects(id, FilesOf(stored, r), after)
  {
    hide Applied, WritesOf, FilesOf, Owns;
    var applied := Applied(origin, WritesOf(id, r));
    AppliedHasObjects(id, stored, r, origin);
    DroppedByIsOwned(id, stored, r);
    forall k: Key | k.Named? && k in applied && k !in DroppedBy(id, stored, r) ensures k in after {
      assert Get(applied, k) == Get(after, k);
    }
  }

  /**
    After an update that ran to its end, the case has all its objects if and only if no old
    file it drops shares its key with a file it keeps.
  */
  lemma UpdateKeepsObjectsIff(id: int, stored: seq<string>, r: Resolved, origin: Objects)
    requires HasObjects(id, stored, origin)
    ensures HasObjects(id, FilesOf(stored, r), Applied(origin, WritesOf(id, r)) - SetOf(DroppedBy(id, stored, r)))
        <==> !DropsOneOf(id, stored, r, FilesOf(stored, r))
  {
    AppliedHasObjects(id, stored, r, origin);
    CleanupKeepsObjectsIff(id, stored, r, FilesOf(stored, r), Applied(origin, WritesOf(id, r)));
  }

  /** Each new file's object was there already, or another new file has the same key. */
  ghost predicate NewFilesSurvive(id: int, r: Resolved, objects: Objects) {
    r.files.Some? ==>
      var names := Names(r.files.value);
      forall i :: 0 <= i < |names| ==>
        || Named(CaseFileKey(id, names[i])) in objects
        || exists j :: 0 <= j < |names| && j != i && CaseFileKey(id, names[j]) == CaseFileKey(id, names[i])
  }

  lemma TwiceIff(id: int, files: seq<Upload>, sides: seq<Write>, writes: seq<Write>, i: nat)
    requires i < |files| && |writes| == |sides| + |files|
    requires forall s :: 0 <= s < |sides| ==> writes[s].key != Named(CaseFileKey(id, files[i].filename))
    requires forall j :: 0 <= j < |files| ==> writes[|sides| + j].key == Named(CaseFileKey(id, files[j].filename))
    ensures WrittenTwice(writes, Named(CaseFileKey(id, files[i].filename)))
        <==> exists j :: 0 <= j < |files| && j != i && CaseFileKey(id, Names(files)[j]) == CaseFileKey(id, Names(files)[i])
  {
    hide CaseFileKey;
    var k := Named(CaseFileKey(id, files[i].filename));
    if x, y :| 0 <= x < y < |writes| && writes[x].key == k && writes[y].key == k {
      var j := if x - |sides| == i then y - |sides| else x - |sides|;
      assert writes[|sides| + j].key == k && Names(files)[j] == files[j].filename;
    }
    if j :| 0 <= j < |files| && j != i && CaseFileKey(id, Names(files)[j]) == CaseFileKey(id, Names(files)[i]) {
      var x, y := |sides| + if j < i then j else i, |sides| + if j < i then i else j;
      assert writes[x].key == k && writes[y].key == k;
    }
  }

  lemma FileWriteTwice(id: int, r: Resolved, i: nat)
    requires r.files.Some? && i < |r.files.value|
    ensures var names, k := Names(r.files.value), Named(CaseFileKey(id, r.files.value[i].filename));
      && (exists w :: 0 <= w < |WritesOf(id, r)| && WritesOf(id, r)[w].key == k)
      && (WrittenTwice(WritesOf(id, r), k)
          <==> exists j :: 0 <= j < |names| && j != i && CaseFileKey(id, names[j]) == CaseFileKey(id, names[i]))
  {
    hide CaseFileKey, CaseInputKey, CaseOutputKey;
    var files, sides, writes := r.files.value, BothSides(id, r), WritesOf(id, r);
    var k := Named(CaseFileKey(id, files[i].filename));
    assert writes == sides + FileWrites(id, files);
    assert writes[|sides| + i].key == k;
    SideKeysAreNoFileKeys(id, r, files);
    forall s | 0 <= s < |sides| ensures writes[s].key != k {
      assert sides[s].key != FileWrites(id, files)[i].key;
    }
    TwiceIff(id, files, sides, writes, i);
  }

  /**
    A commit that took effect but reported a failure: the old objects are put back under the
    new row, so the case has all its objects if and only if every file the new row names
    was there before, or was written twice.
  */
  lemma AmbiguousUpdateKeepsObjectsIff(id: int, stored: seq<string>, r: Resolved, origin: Objects)
    requires HasObjects(id, stored, origin)
    ensures HasObjects(id, FilesOf(stored, r), Undone(origin, WritesOf(id, r))) <==> NewFilesSurvive(id, r, origin)
  {
    hide Undone, CaseFileKey, CaseInputKey, CaseOutputKey, WrittenTwice, WritesOf;
    var writes := WritesOf(id, r);
    UndoneKeepsOrigin(origin, writes);
    if r.files.Some? {
      forall i | 0 <= i < |r.files.value|
        ensures var names, k := Names(r.files.value), Named(CaseFileKey(id, r.files.value[i].filename));
          k in Undone(origin, writes)
          <==> k in origin || exists j :: 0 <= j < |names| && j != i && CaseFileKey(id, names[j]) == CaseFileKey(id, names[i])
      {
        FileWriteTwice(id, r, i);
        var k := Named(CaseFileKey(id, r.files.value[i].filename));
        var w :| 0 <= w < |writes| && writes[w].key == k;
        UndoneHasKeyIff(origin, writes, w);
      }
    }
  }

  /** Its failing input: one file that is new to the case. */
  lemma AmbiguousUpdateLosesNewFile(id: int, stored: seq<string>, r: Resolved, file: Upload, origin: Objects)
    requires HasObjects(id, stored, origin)
    requires r.files == Some([file]) && Named(CaseFileKey(id, file.filename)) !in origin
    ensures !HasObjects(id, FilesOf(stored, r), Undone(origin, WritesOf(id, r)))
  {
    hide Undone, CaseFileKey, WritesOf, HasObjects;
    AmbiguousUpdateKeepsObjectsIff(id, stored, r, origin);
    assert Names([file])[0] == file.filename;
  }

  /** Creating a case whose commit took effect but reported a failure leaves a row without its objects. */
  lemma AmbiguousCreateLosesObjects(id: int, files: seq<string>, r: Resolved, origin: Objects)
    requires r.inputObject.Some?
    ensures !HasObjects(id, files, origin - KeysOf(WritesOf(id, r)))
  {
    assert WritesOf(id, r)[0].key == Named(CaseInputKey(id));
  }

  lemma {:induction false} DroppedKeysComplete(caseId: int, stored: seq<string>, kept: seq<string>, name: string)
    requires name in stored && name !in kept
    ensures Named(CaseFileKey(caseId, name)) in DroppedKeys(caseId, stored, kept)
  {
    if stored[0] != name {
      DroppedKeysComplete(caseId, stored[1..], kept, name);
    }
  }

  /** The failing overlap: the later update names again the file the earlier one dropped. */
  lemma OverlapLosesObject(id: int, a: Resolved, b: Resolved, other: Upload, again: Upload, origin: Objects)
    requires HasObjects(id, [again.filename], origin)
    requires a.files == Some([other]) && other.filename != again.filename
    requires b.files == Some([again])
    ensures var stored := [again.filename];
      var both := Applied(Applied(origin, WritesOf(id, a)), WritesOf(id, b));
      !HasObjects(id, stored, both - SetOf(DroppedBy(id, stored, b)) - SetOf(DroppedBy(id, stored, a)))
  {
    hide Applied, WritesOf, HasObjects, CaseFileKey;
    var stored := [again.filename];
    assert Names([other]) == [other.filename] && Names([again]) == stored;
    assert FilesOf(FilesOf(stored, a), b) == stored;
    DroppedKeysComplete(id, stored, [other.filename], again.filename);
    assert stored[0] == again.filename;
    OverlapKeepsObjectsIff(id, stored, a, b, origin);
  }

  /**
    Which file names overlapping updates must not use, when names are their own base names:
    the later update must not name a file that both found stored and the earlier one dropped.
  */
  lemma OverlapHarmlessIff(id: int, stored: seq<string>, a: Resolved, b: Resolved)
    requires SettledNames(stored) && SettledNames(FilesOf(stored, a)) && SettledNames(FilesOf(FilesOf(stored, a), b))
    ensures var files := FilesOf(FilesOf(stored, a), b);
      !DropsOneOf(id, stored, a, files) && !DropsOneOf(id, stored, b, files)
      <==> forall name :: name in files && name in stored ==> name in FilesOf(stored, a)
  {
    var files := FilesOf(FilesOf(stored, a), b);
    DropsNoneIff(id, stored, a, files);
    DropsNoneIff(id, stored, b, files);
  }

  lemma DropsNoneIff(id: int, stored: seq<string>, r: Resolved, files: seq<string>)
    requires SettledNames(stored) && SettledNames(files)
    ensures DropsOneOf(id, stored, r, files) <==> exists name :: name in files && name in stored && name !in FilesOf(stored, r)
  {
    var kept := FilesOf(stored, r);
    if name :| name in files && name in stored && name !in kept {
      DroppedKeysComplete(id, stored, kept, name);
      var i :| 0 <= i < |files| && files[i] == name;
    }
    if i :| 0 <= i < |files| && Named(CaseFileKey(id, files[i])) in DroppedBy(id, stored, r) {
      DroppedKeysAreFileKeys(id, stored, kept);
      var name :| name in stored && name !in kept && Named(CaseFileKey(id, files[i])) == Named(CaseFileKey(id, name));
      CaseKeysDistinct(id, id, files[i], name);
      assert files[i] in files;
    }
  }

  datatype Edit =
    | Create(exercise: int, request: Request)
    | Update(exercise: int, id: int, request: Request)
    | Delete(exercise: int, id: int)

  datatype State = State(rows: map<int, CaseRow>, objects: Objects)

  /** One performed edit: the states around it, its commit, what the request resolved to. */
  datatype Performed = Performed(before: State, after: State, commit: Outcome, r: Option<Resolved>, clean: bool)

  ghost predicate Complete(s: State) {
    EveryCaseHasObjects(s.rows, s.objects)
  }

  /**
    The edit leaves every case its objects.  A create fails to when its commit is ambiguous;
    an update when it drops a file it keeps under another name, or when its commit is
    ambiguous and its row names a file that was not there.
  */
  ghost predicate Harmless(e: Edit, p: Performed) {
    match e
    case Create(_, _) => !p.commit.DoneButReportedFailed?
    case Update(_, id, _) =>
      p.commit.Refused? || (
        id in p.before.rows && p.r.Some? &&
        var stored := p.before.rows[id].files;
        if p.commit.Done? then !DropsOneOf(id, stored, p.r.value, FilesOf(stored, p.r.value))
        else if p.clean then NewFilesSurvive(id, p.r.value, p.before.objects)
        else FilesAreThere(id, FilesOf(stored, p.r.value), p.before.objects))
    case Delete(_, _) => true
  }

  /** Its commit was not ambiguous, or it is an update that names no file new to the case. */
  ghost predicate NothingNewLost(e: Edit, p: Performed) {
    match e
    case Create(_, _) => !p.commit.DoneButReportedFailed?
    case Update(_, id, _) =>
      p.commit.DoneButReportedFailed? ==>
        id in p.before.rows && p.r.Some? && FilesAreThere(id, FilesOf(p.before.rows[id].files, p.r.value), p.before.objects)
    case Delete(_, _) => true
  }

  /** The upload names survive being reduced to base names twice. */
  ghost predicate SettledUploads(uploads: seq<Upload>) {
    forall i :: 0 <= i < |uploads| ==> FileBasename(FileBasename(uploads[i].filename)) == FileBasename(uploads[i].filename)
  }

  ghost predicate SettledEdit(e: Edit) {
    e.Delete? || e.request.files.None? || SettledUploads(e.request.files.value)
  }

  ghost predicate SettledNames(files: seq<string>) {
    forall name :: name in files ==> FileBasename(name) == name
  }

  ghost predicate SettledRows(rows: map<int, CaseRow>) {
    forall id :: id in rows ==> SettledNames(rows[id].files)
  }

  lemma SettledAnswers(r: Resolved, request: Request, stored: seq<string>)
    requires Answers(r, request) && (request.files.None? || SettledUploads(request.files.value))
    requires SettledNames(stored)
    ensures SettledNames(FilesOf(stored, r))
  {
    if request.files.Some? {
      var files := r.files.value;
      DedupedKeepsFirst(RenamedAll(request.files.value));
      forall name | name in Names(files) ensures FileBasename(name) == name {
        var k :| 0 <= k < |files| && files[k].filename == name;
        assert IsFirstOfItsName(RenamedAll(request.files.value), files[k]);
      }
    }
  }

  lemma EditedCaseAmongOthers(id: int, before: State, after: State)
    requires Complete(before)
    requires after.rows - {id} == before.rows - {id} && TouchesOnly(id, before.objects, after.objects)
    requires id in after.rows ==> HasObjects(id, after.rows[id].files, after.objects)
    ensures Complete(after)
  {
    hide HasObjects, TouchesOnly;
    forall other | other in after.rows && other != id ensures HasObjects(other, after.rows[other].files, after.objects) {
      assert other in after.rows - {id};
      assert other in before.rows && after.rows[other] == (after.rows - {id})[other] == before.rows[other];
      OthersKeepTheirObjects(id, other, after.rows[other].files, before.objects, after.objects);
    }
  }

  lemma SettledAmongOthers(id: int, before: map<int, CaseRow>, after: map<int, CaseRow>)
    requires SettledRows(before) && after - {id} == before - {id} && (id in after ==> SettledNames(after[id].files))
    ensures SettledRows(after)
  {
    forall other | other in after && other != id ensures other in before && after[other] == before[other] {
      assert other in after - {id} && (after - {id})[other] == (before - {id})[other];
    }
  }

  /** What the performed edit guarantees, whatever its names and outcomes. */
  ghost predicate Guaranteed(e: Edit, p: Performed) {
    && (Complete(p.before) && Harmless(e, p) ==> Complete(p.after))
    && (Complete(p.before) && p.clean && !Harmless(e, p) ==> !Complete(p.after))
    && (SettledEdit(e) && SettledRows(p.before.rows) ==> SettledRows(p.after.rows))
    && (SettledEdit(e) && SettledRows(p.before.rows) && NothingNewLost(e, p) ==> Harmless(e, p))
  }

  method PerformCreate(repo: CaseRepository, exercise: int, request: Request) returns (ghost p: Performed)
    requires repo.Valid()
    modifies repo, repo.bucket
    ensures repo.Valid()
    ensures p.before == State(old(repo.rows), old(repo.bucket.objects)) && p.after == State(repo.rows, repo.bucket.objects)
    ensures Guaranteed(Create(exercise, request), p)
  {
    hide HasObjects, SettledUploads, SettledNames, EveryCaseHasObjects, SettledRows, Applied, KeysOf, WritesOf, TouchesOnly, Answers;
    ghost var id := repo.nextId;
    ghost var before := State(repo.rows, repo.bucket.objects);
    var result;
    ghost var commit, r, clean;
    result, commit, r, clean := repo.CreateTestCase(exercise, request);
    p := Performed(before, State(repo.rows, repo.bucket.objects), commit, r, clean);
    CreateGuarantees(id, exercise, request, p);
  }

  lemma CreateGuarantees(id: int, exercise: int, request: Request, p: Performed)
    requires id !in p.before.rows
    requires p.after.rows - {id} == p.before.rows - {id} && TouchesOnly(id, p.before.objects, p.after.objects)
    requires p.commit.Refused? ==> p.after.rows == p.before.rows
    requires !p.commit.Refused? ==> p.r.Some? && p.after.rows == p.before.rows[id := RowAfter(exercise, [], p.r.value)]
    requires p.r.Some? ==> p.r.value.inputObject.Some? && p.r.value.outputObject.Some? && Answers(p.r.value, request)
    requires p.commit.Done? ==> p.after.objects == Applied(p.before.objects, WritesOf(id, p.r.value))
    requires p.commit.DoneButReportedFailed? && p.clean ==> p.after.objects == p.before.objects - KeysOf(WritesOf(id, p.r.value))
    ensures Guaranteed(Create(exercise, request), p)
  {
    hide HasObjects, SettledUploads, SettledNames, SettledRows, Applied, KeysOf, WritesOf, TouchesOnly, Answers;
    var e := Create(exercise, request);
    if !p.commit.Refused? {
      var r := p.r.value;
      assert SettledNames([]) by { NoNamesSettled(); }
      if SettledEdit(e) {
        SettledAnswers(r, request, []);
      }
      NoFilesThere(id, p.before.objects);
      AppliedHasObjects(id, [], r, p.before.objects);
      AmbiguousCreateLosesObjects(id, FilesOf([], r), r, p.before.objects);
      CompleteAt(p.after, id);
    }
    if Complete(p.before) && Harmless(e, p) {
      EditedCaseAmongOthers(id, p.before, p.after);
    }
    if SettledEdit(e) && SettledRows(p.before.rows) {
      SettledAmongOthers(id, p.before.rows, p.after.rows);
    }
  }

  lemma CompleteAt(s: State, id: int)
    requires id in s.rows
    ensures Complete(s) ==> HasObjects(id, s.rows[id].files, s.objects)
  {
  }

  lemma NoNamesSettled()
    ensures SettledNames([])
  {
  }

  lemma NoFilesThere(id: int, objects: Objects)
    ensures FilesAreThere(id, [], objects)
  {
  }

  method PerformUpdate(repo: CaseRepository, exercise: int, id: int, request: Request) returns (ghost p: Performed)
    requires repo.Valid()
    modifies repo, repo.bucket
    ensures repo.Valid()
    ensures p.before == State(old(repo.rows), old(repo.bucket.objects)) && p.after == State(repo.rows, repo.bucket.objects)
    ensures Guaranteed(Update(exercise, id, request), p)
  {
    hide HasObjects, SettledUploads, SettledNames, EveryCaseHasObjects, SettledRows, Applied, KeysOf, WritesOf, TouchesOnly, Answers, Undone, DistinctKeys, Keeps, DroppedBy;
    ghost var before := State(repo.rows, repo.bucket.objects);
    var result;
    ghost var commit, r, clean;
    result, commit, r, clean := repo.UpdateTestCase(exercise, id, request);
    p := Performed(before, State(repo.rows, repo.bucket.objects), commit, r, clean);
    UpdateGuarantees(id, exercise, request, p);
  }

  lemma UpdateGuarantees(id: int, exercise: int, request: Request, p: Performed)
    requires p.after.rows - {id} == p.before.rows - {id} && TouchesOnly(id, p.before.objects, p.after.objects)
    requires p.commit.Refused? ==> p.after.rows == p.before.rows
    requires !p.commit.Refused? ==>
      && id in p.before.rows && p.r.Some? && Answers(p.r.value, request)
      && p.after.rows == p.before.rows[id := RowAfter(exercise, p.before.rows[id].files, p.r.value)]
    requires p.commit.Done? ==> var r, stored := p.r.value, p.before.rows[id].files;
      && SameExcept(Applied(p.before.objects, WritesOf(id, r)), p.after.objects, SetOf(DroppedBy(id, stored, r)))
      && (p.clean ==> p.after.objects == Applied(p.before.objects, WritesOf(id, r)) - SetOf(DroppedBy(id, stored, r)))
    requires !p.commit.Done? ==> Keeps(p.before.objects, p.after.objects)
    requires p.commit.DoneButReportedFailed? && p.clean ==> p.after.objects == Undone(p.before.objects, WritesOf(id, p.r.value))
    ensures Guaranteed(Update(exercise, id, request), p)
  {
    hide HasObjects, SettledUploads, SettledNames, SettledRows, Applied, KeysOf, WritesOf, TouchesOnly, Answers, Undone, SameExcept, SetOf, Keeps, FilesOf, DropsOneOf, NewFilesSurvive, FilesAreThere;
    var e := Update(exercise, id, request);
    if Complete(p.before) && id in p.before.rows {
      UpdatedCaseHasObjects(id, p.before.rows[id].files, p);
      CompleteAt(p.after, id);
    }
    if Complete(p.before) && Harmless(e, p) {
      EditedCaseAmongOthers(id, p.before, p.after);
    }
    if SettledEdit(e) && SettledRows(p.before.rows) {
      if !p.commit.Refused? {
        var r, stored := p.r.value, p.before.rows[id].files;
        assert SettledNames(stored) by { SettledAt(p.before.rows, id); }
        SettledAnswers(r, request, stored);
        SettledDropsNothing(id, stored, r);
        SurvivesIfThere(id, stored, r, p.before.objects);
      } else if id in p.before.rows {
        SettledAt(p.before.rows, id);
      }
      SettledAmongOthers(id, p.before.rows, p.after.rows);
    }
  }

  lemma SettledAt(rows: map<int, CaseRow>, id: int)
    requires SettledRows(rows) && id in rows
    ensures SettledNames(rows[id].files)
  {
  }

  /** File names that are their own base names never make an update drop a live object. */
  lemma SettledDropsNothing(id: int, stored: seq<string>, r: Resolved)
    requires SettledNames(stored) && SettledNames(FilesOf(stored, r))
    ensures !DropsOneOf(id, stored, r, FilesOf(stored, r))
  {
    DropsNoneIff(id, stored, r, FilesOf(stored, r));
  }

  lemma SurvivesIfThere(id: int, stored: seq<string>, r: Resolved, objects: Objects)
    ensures FilesAreThere(id, FilesOf(stored, r), objects) ==> NewFilesSurvive(id, r, objects)
  {
  }

  /** The edited case itself, in each outcome of the commit. */
  lemma UpdatedCaseHasObjects(id: int, stored: seq<string>, p: Performed)
    requires HasObjects(id, stored, p.before.objects)
    requires !p.commit.Refused? ==> p.r.Some?
    requires p.commit.Done? ==> var r := p.r.value;
      && SameExcept(Applied(p.before.objects, WritesOf(id, r)), p.after.objects, SetOf(DroppedBy(id, stored, r)))
      && (p.clean ==> p.after.objects == Applied(p.before.objects, WritesOf(id, r)) - SetOf(DroppedBy(id, stored, r)))
    requires !p.commit.Done? ==> Keeps(p.before.objects, p.after.objects)
    requires p.commit.DoneButReportedFailed? && p.clean ==> p.after.objects == Undone(p.before.objects, WritesOf(id, p.r.value))
    ensures p.commit.Refused? ==> HasObjects(id, stored, p.after.objects)
    ensures p.commit.Done? && !DropsOneOf(id, stored, p.r.value, FilesOf(stored, p.r.value)) ==>
      HasObjects(id, FilesOf(stored, p.r.value), p.after.objects)
    ensures p.commit.Done? && p.clean && DropsOneOf(id, stored, p.r.value, FilesOf(stored, p.r.value)) ==>
      !HasObjects(id, FilesOf(stored, p.r.value), p.after.objects)
    ensures p.commit.DoneButReportedFailed? && FilesAreThere(id, FilesOf(stored, p.r.value), p.before.objects) ==>
      HasObjects(id, FilesOf(stored, p.r.value), p.after.objects)
    ensures p.commit.DoneButReportedFailed? && p.clean ==>
      (HasObjects(id, FilesOf(stored, p.r.value), p.after.objects) <==> NewFilesSurvive(id, p.r.value, p.before.objects))
  {
    hide Applied, WritesOf, Undone, SameExcept, DropsOneOf, NewFilesSurvive, DroppedBy, FilesOf, CaseFileKey, CaseInputKey, CaseOutputKey;
    match p.commit {
      case Refused =>
      case Done =>
        var r := p.r.value;
        if !DropsOneOf(id, stored, r, FilesOf(stored, r)) {
          UpdateKeepsObjects(id, stored, r, p.before.objects, p.after.objects);
        }
        UpdateKeepsObjectsIff(id, stored, r, p.before.objects);
      case DoneButReportedFailed =>
        AmbiguousUpdateKeepsObjectsIff(id, stored, p.r.value, p.before.objects);
    }
  }

  method PerformDelete(repo: CaseRepository, exercise: int, id: int) returns (ghost p: Performed)
    requires repo.Valid()
    modifies repo, repo.bucket
    ensures repo.Valid()
    ensures p.before == State(old(repo.rows), old(repo.bucket.objects)) && p.after == State(repo.rows, repo.bucket.objects)
    ensures Guaranteed(Delete(exercise, id), p)
  {
    ghost var before := State(repo.rows, repo.bucket.objects);
    var failure;
    ghost var clean;
    failure, clean := repo.DeleteTestCase(exercise, id);
    p := Performed(before, State(repo.rows, repo.bucket.objects), Refused, None, clean);
    if SettledRows(before.rows) {
      SettledAmongOthers(id, before.rows, repo.rows);
    }
    if Complete(before) {
      EditedCaseAmongOthers(id, before, p.after);
    }
  }

  /**
    One edit, with any upload names and whatever fails in it: every committed case keeps its
    objects if the edit is harmless, and only then when no cleanup failed.
  */
  method Perform(repo: CaseRepository, e: Edit) returns (ghost p: Performed)
    requires repo.Valid()
    modifies repo, repo.bucket
    ensures repo.Valid()
    ensures p.before == State(old(repo.rows), old(repo.bucket.objects)) && p.after == State(repo.rows, repo.bucket.objects)
    ensures Guaranteed(e, p)
  {
    match e {
      case Create(exercise, request) => p := PerformCreate(repo, exercise, request);
      case Update(exercise, id, request) => p := PerformUpdate(repo, exercise, id, request);
      case Delete(exercise, id) => p := PerformDelete(repo, exercise, id);
    }
  }

  /** The performed edits lead from one state to the other. */
  ghost predicate Chain(ps: seq<Performed>, first: State, last: State) {
    && (if ps == [] then first == last else ps[0].before == first && ps[|ps| - 1].after == last)
    && forall i :: 0 < i < |ps| ==> ps[i].before == ps[i - 1].after
  }

  /**
    Any run of edits, with failures and crashes anywhere, from a state where every committed
    case has its objects.  They all still do after every run of harmless edits; the first
    edit that is not harmless, if its cleanups succeed, costs some case an object.  With
    upload names that survive two reductions to base names, it is enough that no commit of a
    create or of an update that names a new file is ambiguous.
  */
  method Serve(repo: CaseRepository, edits: seq<Edit>) returns (ghost ps: seq<Performed>)
    requires repo.Valid() && EveryCaseHasObjects(repo.rows, repo.bucket.objects)
    modifies repo, repo.bucket
    ensures |ps| == |edits| && Chain(ps, State(old(repo.rows), old(repo.bucket.objects)), State(repo.rows, repo.bucket.objects))
    ensures (forall i :: 0 <= i < |edits| ==> Harmless(edits[i], ps[i])) ==> EveryCaseHasObjects(repo.rows, repo.bucket.objects)
    ensures forall i :: 0 <= i < |edits| && (forall j :: 0 <= j < i ==> Harmless(edits[j], ps[j])) && ps[i].clean ==>
      (Harmless(edits[i], ps[i]) <==> Complete(ps[i].after))
    ensures old(SettledRows(repo.rows)) && (forall i :: 0 <= i < |edits| ==> SettledEdit(edits[i]) && NothingNewLost(edits[i], ps[i])) ==>
      EveryCaseHasObjects(repo.rows, repo.bucket.objects)
  {
    hide Harmless, NothingNewLost, SettledEdit, SettledRows;
    ps := [];
    for i := 0 to |edits|
      invariant repo.Valid() && |ps| == i
      invariant Chain(ps, State(old(repo.rows), old(repo.bucket.objects)), State(repo.rows, repo.bucket.objects))
      invariant forall k :: 0 <= k < i ==> Guaranteed(edits[k], ps[k])
    {
      ghost var p := Perform(repo, edits[i]);
      ps := ps + [p];
    }
    RunGuarantees(edits, ps, State(old(repo.rows), old(repo.bucket.objects)));
    assert |ps| > 0 ==> ps[|ps| - 1].after == State(repo.rows, repo.bucket.objects);
  }

  /** Along a chain, every state up to the first harmful edit is complete. */
  lemma {:induction false} CompleteUpTo(edits: seq<Edit>, ps: seq<Performed>, first: State, n: nat)
    requires n <= |ps| == |edits| && Complete(first) && (ps != [] ==> ps[0].before == first)
    requires forall i :: 0 < i < |ps| ==> ps[i].before == ps[i - 1].after
    requires forall i :: 0 <= i < n ==> Guaranteed(edits[i], ps[i]) && Harmless(edits[i], ps[i])
    ensures n > 0 ==> Complete(ps[n - 1].after)
    ensures n < |ps| ==> Complete(ps[n].before)
  {
    hide Complete, Harmless, SettledEdit, SettledRows, NothingNewLost;
    if n > 0 {
      CompleteUpTo(edits, ps, first, n - 1);
    }
  }

  /** Along a chain of settled edits every state has settled rows. */
  lemma {:induction false} SettledUpTo(edits: seq<Edit>, ps: seq<Performed>, first: State, n: nat)
    requires n < |ps| == |edits| && SettledRows(first.rows) && ps[0].before == first
    requires forall i :: 0 < i < |ps| ==> ps[i].before == ps[i - 1].after
    requires forall i :: 0 <= i < n ==> Guaranteed(edits[i], ps[i]) && SettledEdit(edits[i])
    ensures SettledRows(ps[n].before.rows)
  {
    hide Complete, Harmless, SettledEdit, SettledRows, NothingNewLost;
    if n > 0 {
      SettledUpTo(edits, ps, first, n - 1);
    }
  }

  lemma RunGuarantees(edits: seq<Edit>, ps: seq<Performed>, first: State)
    requires |ps| == |edits| && Complete(first) && (ps != [] ==> ps[0].before == first)
    requires forall i :: 0 < i < |ps| ==> ps[i].before == ps[i - 1].after
    requires forall i :: 0 <= i < |ps| ==> Guaranteed(edits[i], ps[i])
    ensures (forall i :: 0 <= i < |edits| ==> Harmless(edits[i], ps[i])) && ps != [] ==> Complete(ps[|ps| - 1].after)
    ensures forall i :: 0 <= i < |edits| && (forall j :: 0 <= j < i ==> Harmless(edits[j], ps[j])) && ps[i].clean ==>
      (Harmless(edits[i], ps[i]) <==> Complete(ps[i].after))
    ensures SettledRows(first.rows) && (forall i :: 0 <= i < |edits| ==> SettledEdit(edits[i]) && NothingNewLost(edits[i], ps[i])) ==>
      forall i :: 0 <= i < |edits| ==> Harmless(edits[i], ps[i])
  {
    hide Complete, Harmless, SettledEdit, SettledRows, NothingNewLost;
    forall i | 0 <= i < |edits| && (forall j :: 0 <= j < i ==> Harmless(edits[j], ps[j]))
      ensures Complete(ps[i].before)
    {
      CompleteUpTo(edits, ps, first, i);
    }
    if forall i :: 0 <= i < |edits| ==> Harmless(edits[i], ps[i]) {
      CompleteUpTo(edits, ps, first, |ps|);
    }
    if SettledRows(first.rows) && (forall i :: 0 <= i < |edits| ==> SettledEdit(edits[i]) && NothingNewLost(edits[i], ps[i])) {
      forall i | 0 <= i < |edits| ensures Harmless(edits[i], ps[i]) {
        SettledUpTo(edits, ps, first, i);
      }
    }
  }
}
