/**
  The undo log over an object store (backend/storage/object-replacer.go).

  An operation ends in one of three ways: done, refused without effect, or done although a
  failure is reported.  A crash is a run in which every later operation is refused.  Backup
  keys carry random tokens: they are modelled as names of their own, drawn once each.
*/
module ObjectReplacer {
  import opened Wrappers

  datatype Key = Named(name: string) | BackupOf(name: string, token: nat)

  datatype Object = Object(data: string, contentType: string)

  type Objects = map<Key, Object>

  datatype Outcome = Done | Refused | DoneButReportedFailed

  function Get(m: Objects, k: Key): Option<Object> {
    if k in m then Some(m[k]) else None
  }

  /** The store with `k` holding `value`, or without `k`. */
  function With(m: Objects, k: Key, value: Option<Object>): Objects {
    match value
    case Some(o) => m[k := o]
    case None => m - {k}
  }

  /** One operation that would take the store from `before` to `intended`. */
  ghost predicate Settles(outcome: Outcome, before: Objects, intended: Objects, after: Objects) {
    after == if outcome.Refused? then before else intended
  }

  class Bucket {
    var objects: Objects
    var nextToken: nat

    /** Tokens are never drawn twice. */
    ghost predicate Valid()
      reads this
    {
      forall k :: k in objects && k.BackupOf? ==> k.token < nextToken
    }

    method Exists(key: Key) returns (ok: bool, found: bool)
      ensures ok ==> found == (key in objects)
    {
      ok := *;
      found := key in objects;
    }

    method Copy(source: Key, target: Key) returns (outcome: Outcome)
      requires Valid() && (target.BackupOf? ==> target.token < nextToken)
      modifies this`objects
      ensures Valid()
      ensures source !in old(objects) ==> outcome.Refused?
      ensures Settles(outcome, old(objects), With(old(objects), target, Get(old(objects), source)), objects)
    {
      outcome := *;
      if source !in objects {
        outcome := Refused;
      } else if !outcome.Refused? {
        objects := objects[target := objects[source]];
      }
    }

    method Put(key: Key, content: Object) returns (outcome: Outcome)
      requires Valid() && key.Named?
      modifies this`objects
      ensures Valid()
      ensures Settles(outcome, old(objects), old(objects)[key := content], objects)
    {
      outcome := *;
      if !outcome.Refused? {
        objects := objects[key := content];
      }
    }

    method Remove(key: Key) returns (outcome: Outcome)
      requires Valid()
      modifies this`objects
      ensures Valid()
      ensures Settles(outcome, old(objects), old(objects) - {key}, objects)
    {
      outcome := *;
      if !outcome.Refused? {
        objects := objects - {key};
      }
    }
  }

  // --- what a list of writes and its undoing do -----------------------------------

  datatype Write = Write(key: Key, content: Object)

  function Applied(origin: Objects, writes: seq<Write>): Objects {
    if writes == [] then origin
    else
      var last := writes[|writes| - 1];
      Applied(origin, writes[..|writes| - 1])[last.key := last.content]
  }

  /** What write `i` found at its key. */
  function Found(origin: Objects, writes: seq<Write>, i: nat): Option<Object>
    requires i < |writes|
  {
    Get(Applied(origin, writes[..i]), writes[i].key)
  }

  /** Putting back, first write first, what each write had found. */
  function UndoneForward(m: Objects, origin: Objects, writes: seq<Write>, n: nat): Objects
    requires n <= |writes|
  {
    if n == 0 then m
    else With(UndoneForward(m, origin, writes, n - 1), writes[n - 1].key, Found(origin, writes, n - 1))
  }

  ghost predicate LastOfItsKey(writes: seq<Write>, i: nat)
    requires i < |writes|
  {
    forall j :: i < j < |writes| ==> writes[j].key != writes[i].key
  }

  ghost predicate DistinctKeys(writes: seq<Write>) {
    forall i, j :: 0 <= i < j < |writes| ==> writes[i].key != writes[j].key
  }

  lemma {:induction false} AppliedElsewhere(origin: Objects, writes: seq<Write>, k: Key)
    requires forall i :: 0 <= i < |writes| ==> writes[i].key != k
    ensures Get(Applied(origin, writes), k) == Get(origin, k)
  {
    if writes != [] {
      AppliedElsewhere(origin, writes[..|writes| - 1], k);
    }
  }

  lemma {:induction false} AppliedOnlyAdds(origin: Objects, writes: seq<Write>)
    ensures origin.Keys <= Applied(origin, writes).Keys
    ensures forall i :: 0 <= i < |writes| ==> writes[i].key in Applied(origin, writes)
  {
    if writes != [] {
      AppliedOnlyAdds(origin, writes[..|writes| - 1]);
    }
  }

  lemma {:induction false} UndoneElsewhere(m: Objects, origin: Objects, writes: seq<Write>, n: nat, k: Key)
    requires n <= |writes| && forall i :: 0 <= i < n ==> writes[i].key != k
    ensures Get(UndoneForward(m, origin, writes, n), k) == Get(m, k)
  {
    if n > 0 {
      UndoneElsewhere(m, origin, writes, n - 1, k);
    }
  }

  /** Undoing forward leaves at a key what its last write had found. */
  lemma {:induction false} UndoneAtKey(m: Objects, origin: Objects, writes: seq<Write>, n: nat, i: nat)
    requires i < n <= |writes| && forall j :: i < j < n ==> writes[j].key != writes[i].key
    ensures Get(UndoneForward(m, origin, writes, n), writes[i].key) == Found(origin, writes, i)
  {
    if i < n - 1 {
      UndoneAtKey(m, origin, writes, n - 1, i);
    }
  }

  lemma {:induction false} LastWrite(writes: seq<Write>, i: nat) returns (last: nat)
    requires i < |writes|
    ensures last < |writes| && writes[last].key == writes[i].key && LastOfItsKey(writes, last)
    decreases |writes| - i
  {
    if j :| i < j < |writes| && writes[j].key == writes[i].key {
      last := LastWrite(writes, j);
    } else {
      last := i;
    }
  }

  /** The last write of every key found the original object there. */
  ghost predicate LastWritesFoundOriginals(origin: Objects, writes: seq<Write>) {
    forall i :: 0 <= i < |writes| && LastOfItsKey(writes, i) ==>
      Found(origin, writes, i) == Get(origin, writes[i].key)
  }

  /** Forward undoing is exact if and only if the last write of every key found the original. */
  lemma UndoIsExactIff(origin: Objects, writes: seq<Write>)
    ensures UndoneForward(Applied(origin, writes), origin, writes, |writes|) == origin
        <==> LastWritesFoundOriginals(origin, writes)
  {
    var undone := UndoneForward(Applied(origin, writes), origin, writes, |writes|);
    forall i | 0 <= i < |writes| && LastOfItsKey(writes, i)
      ensures Get(undone, writes[i].key) == Found(origin, writes, i)
    {
      UndoneAtKey(Applied(origin, writes), origin, writes, |writes|, i);
    }
    if LastWritesFoundOriginals(origin, writes) {
      forall k ensures Get(undone, k) == Get(origin, k) {
        if i :| 0 <= i < |writes| && writes[i].key == k {
          var last := LastWrite(writes, i);
        } else {
          UndoneElsewhere(Applied(origin, writes), origin, writes, |writes|, k);
          AppliedElsewhere(origin, writes, k);
        }
      }
      SameEverywhere(undone, origin);
    }
  }

  lemma SameEverywhere(a: Objects, b: Objects)
    requires forall k :: Get(a, k) == Get(b, k)
    ensures a == b
  {
    forall k ensures k in a <==> k in b {
      assert Get(a, k) == Get(b, k);
    }
    forall k | k in a ensures a[k] == b[k] {
      assert Get(a, k) == Get(b, k);
    }
  }

  /** Pairwise distinct keys are enough. */
  lemma DistinctKeysUndoExactly(origin: Objects, writes: seq<Write>)
    requires DistinctKeys(writes)
    ensures UndoneForward(Applied(origin, writes), origin, writes, |writes|) == origin
  {
    forall i | 0 <= i < |writes| ensures Found(origin, writes, i) == Get(origin, writes[i].key) {
      AppliedElsewhere(origin, writes[..i], writes[i].key);
    }
    UndoIsExactIff(origin, writes);
  }

  /** The whole list undone. */
  ghost function Undone(origin: Objects, writes: seq<Write>): Objects {
    UndoneForward(Applied(origin, writes), origin, writes, |writes|)
  }

  ghost predicate WrittenTwice(writes: seq<Write>, k: Key) {
    exists i, j :: 0 <= i < j < |writes| && writes[i].key == k && writes[j].key == k
  }

  /** After undoing, something is at a written key exactly when it was there before or was written twice. */
  lemma UndoneHasKeyIff(origin: Objects, writes: seq<Write>, i: nat)
    requires i < |writes|
    ensures writes[i].key in Undone(origin, writes) <==> writes[i].key in origin || WrittenTwice(writes, writes[i].key)
  {
    var k := writes[i].key;
    var last := LastWrite(writes, i);
    var earlier := writes[..last];
    UndoneAtKey(Applied(origin, writes), origin, writes, |writes|, last);
    AppliedOnlyAdds(origin, earlier);
    if j :| 0 <= j < last && writes[j].key == k {
      assert earlier[j].key == k;
    } else {
      AppliedElsewhere(origin, earlier, k);
    }
  }

  /** Undoing never removes what was there before. */
  lemma UndoneKeepsOrigin(origin: Objects, writes: seq<Write>)
    ensures origin.Keys <= Undone(origin, writes).Keys
  {
    forall k | k in origin ensures k in Undone(origin, writes) {
      if i :| 0 <= i < |writes| && writes[i].key == k {
        UndoneHasKeyIff(origin, writes, i);
      } else {
        UndoneElsewhere(Applied(origin, writes), origin, writes, |writes|, k);
        AppliedElsewhere(origin, writes, k);
      }
    }
  }

  /** Two different writes to a new key: forward undoing leaves the first one behind. */
  lemma RepeatedKeyIsNotUndone(origin: Objects, key: Key, first: Object, second: Object)
    requires key !in origin
    ensures var writes := [Write(key, first), Write(key, second)];
      UndoneForward(Applied(origin, writes), origin, writes, 2) == origin[key := first]
  {
    var writes := [Write(key, first), Write(key, second)];
    assert writes[..1] == [Write(key, first)] && writes[..0] == [];
    assert Applied(origin, writes[..1]) == origin[key := first];
    assert Found(origin, writes, 0) == None && Found(origin, writes, 1) == Some(first);
    var applied := Applied(origin, writes);
    assert UndoneForward(applied, origin, writes, 1) == applied - {key};
  }

  /**
    A write that took effect although it reported a failure is not in the log: undoing the
    logged writes of the same operation leaves it in place of the previous object.
  */
  lemma UnacknowledgedWriteSurvivesUndo(origin: Objects, writes: seq<Write>, key: Key, content: Object)
    requires key !in KeysOf(writes)
    ensures var undone := UndoneForward(Applied(origin, writes)[key := content], origin, writes, |writes|);
      && Get(undone, key) == Some(content)
      && (undone == origin ==> Get(origin, key) == Some(content))
  {
    UndoneElsewhere(Applied(origin, writes)[key := content], origin, writes, |writes|, key);
  }

  /**
    The failing run of Replace: the backup is copied, the write takes effect but reports a
    failure, and the backup is removed as after any failed write.  The previous object, if
    stored nowhere else, is then nowhere.
  */
  lemma FailedReplaceLosesObject(
      before: Objects, key: Key, previous: Object, content: Object, backup: Key,
      copied: Objects, written: Objects, after: Objects)
    requires Get(before, key) == Some(previous) && previous != content
    requires forall k :: Get(before, k) == Some(previous) ==> k == key
    requires backup !in before
    requires Settles(Done, before, With(before, backup, Get(before, key)), copied)
    requires Settles(DoneButReportedFailed, copied, copied[key := content], written)
    requires Settles(Done, written, written - {backup}, after)
    ensures after == before[key := content]
    ensures forall k :: Get(after, k) != Some(previous)
  {
    forall k ensures Get(after, k) == Get(before[key := content], k) {
    }
    SameEverywhere(after, before[key := content]);
    forall k ensures Get(after, k) != Some(previous) {
      if k != key {
        assert Get(after, k) == Get(before, k);
      }
    }
  }

  // --- the replacer ---------------------------------------------------------------------

  datatype Item = Item(key: Key, backup: Option<Key>)

  /** Live objects outside `touched` are the same. */
  ghost predicate SameExcept(before: Objects, after: Objects, touched: set<Key>) {
    forall k: Key :: k.Named? && k !in touched ==> Get(before, k) == Get(after, k)
  }

  ghost function KeysOf(writes: seq<Write>): set<Key> {
    set i | 0 <= i < |writes| :: writes[i].key
  }

  ghost predicate IsBackup(items: seq<Item>, k: Key) {
    exists i :: 0 <= i < |items| && items[i].backup == Some(k)
  }

  /** `item` belongs to write `i` and backs up what that write found. */
  ghost predicate Logged(item: Item, origin: Objects, writes: seq<Write>, i: nat, objects: Objects)
    requires i < |writes|
  {
    && item.key == writes[i].key && item.key.Named?
    && match item.backup
       case None => Found(origin, writes, i) == None
       case Some(b) => b.BackupOf? && b !in origin && Get(objects, b) == Found(origin, writes, i) != None
  }

  ghost predicate Logs(items: seq<Item>, origin: Objects, writes: seq<Write>, objects: Objects) {
    && |items| == |writes|
    && (forall i :: 0 <= i < |items| ==> Logged(items[i], origin, writes, i, objects))
    && (forall i, j :: 0 <= i < j < |items| && items[i].backup.Some? ==> items[i].backup != items[j].backup)
  }

  lemma LiveAndBackupKeys(items: seq<Item>, origin: Objects, writes: seq<Write>, objects: Objects)
    requires Logs(items, origin, writes, objects)
    ensures forall i :: 0 <= i < |writes| ==> writes[i].key.Named?
    ensures forall k :: IsBackup(items, k) ==> k.BackupOf? && k !in origin
  {
    forall i | 0 <= i < |writes| ensures writes[i].key.Named? {
      assert Logged(items[i], origin, writes, i, objects);
    }
  }

  /** The store holds the origin, the writes and the backups, and nothing else. */
  ghost predicate Matches(items: seq<Item>, origin: Objects, writes: seq<Write>, objects: Objects) {
    forall k :: !IsBackup(items, k) ==> Get(objects, k) == Get(Applied(origin, writes), k)
  }

  lemma LogsStayIfBackupsStay(items: seq<Item>, origin: Objects, writes: seq<Write>, objects: Objects, now: Objects)
    requires Logs(items, origin, writes, objects)
    requires forall k: Key :: k.BackupOf? && k in objects ==> Get(now, k) == Get(objects, k)
    ensures Logs(items, origin, writes, now)
  {
  }

  lemma FoundEarlier(origin: Objects, writes: seq<Write>, write: Write)
    ensures forall i :: 0 <= i < |writes| ==> Found(origin, writes + [write], i) == Found(origin, writes, i)
    ensures Found(origin, writes + [write], |writes|) == Get(Applied(origin, writes), write.key)
    ensures Applied(origin, writes + [write]) == Applied(origin, writes)[write.key := write.content]
  {
    forall i | 0 <= i <= |writes| ensures (writes + [write])[..i] == writes[..i] {
    }
    assert writes[..|writes|] == writes;
  }

  /** What Replace leaves in the store when it succeeds. */
  ghost function AfterReplace(before: Objects, item: Item, content: Object): Objects {
    With(before, item.backup.GetOr(item.key), Get(before, item.key))[item.key := content]
  }

  /** `item` backs up what is at its key, under a key never used before. */
  ghost predicate BacksUpFreshly(item: Item, origin: Objects, before: Objects) {
    && item.key.Named?
    && item.backup.Some? == (item.key in before)
    && (item.backup.Some? ==> item.backup.value.BackupOf? && item.backup.value !in before && item.backup.value !in origin)
  }

  lemma NewItemIsLogged(
      items: seq<Item>, origin: Objects, writes: seq<Write>, before: Objects, item: Item, content: Object)
    requires Logs(items, origin, writes, before) && Matches(items, origin, writes, before)
    requires BacksUpFreshly(item, origin, before)
    ensures Logs(items + [item], origin, writes + [Write(item.key, content)], AfterReplace(before, item, content))
  {
    var write, after := Write(item.key, content), AfterReplace(before, item, content);
    FoundEarlier(origin, writes, write);
    forall i | 0 <= i < |items|
      ensures Logged(items[i], origin, writes + [write], i, after) && (items[i].backup.Some? ==> items[i].backup != item.backup)
    {
      assert Logged(items[i], origin, writes, i, before);
    }
    assert !IsBackup(items, item.key);
    assert Logged(item, origin, writes + [write], |writes|, after);
  }

  lemma NewItemIsMatched(
      items: seq<Item>, origin: Objects, writes: seq<Write>, before: Objects, item: Item, content: Object)
    requires Matches(items, origin, writes, before)
    requires BacksUpFreshly(item, origin, before)
    ensures Matches(items + [item], origin, writes + [Write(item.key, content)], AfterReplace(before, item, content))
  {
    FoundEarlier(origin, writes, Write(item.key, content));
    forall k | IsBackup(items, k) ensures IsBackup(items + [item], k) {
      var i :| 0 <= i < |items| && items[i].backup == Some(k);
      assert (items + [item])[i].backup == Some(k);
    }
    assert (items + [item])[|items|] == item;
  }

  ghost function BackupsOf(items: seq<Item>): set<Key> {
    set i | 0 <= i < |items| && items[i].backup.Some? :: items[i].backup.value
  }

  lemma {:induction false} UndoneAgree(a: Objects, b: Objects, origin: Objects, writes: seq<Write>, n: nat, k: Key)
    requires n <= |writes| && Get(a, k) == Get(b, k)
    ensures Get(UndoneForward(a, origin, writes, n), k) == Get(UndoneForward(b, origin, writes, n), k)
  {
    if n > 0 {
      UndoneAgree(a, b, origin, writes, n - 1, k);
    }
  }

  /** Undoing the store and dropping the backups is undoing the writes alone. */
  lemma BackupsAreExtra(items: seq<Item>, origin: Objects, writes: seq<Write>, objects: Objects)
    requires Logs(items, origin, writes, objects) && Matches(items, origin, writes, objects)
    ensures UndoneForward(objects, origin, writes, |writes|) - BackupsOf(items)
         == UndoneForward(Applied(origin, writes), origin, writes, |writes|)
    ensures objects - BackupsOf(items) == Applied(origin, writes)
  {
    LiveAndBackupKeys(items, origin, writes, objects);
    forall k
      ensures Get(UndoneForward(objects, origin, writes, |writes|) - BackupsOf(items), k)
           == Get(UndoneForward(Applied(origin, writes), origin, writes, |writes|), k)
      ensures Get(objects - BackupsOf(items), k) == Get(Applied(origin, writes), k)
    {
      if IsBackup(items, k) {
        AppliedElsewhere(origin, writes, k);
        UndoneElsewhere(Applied(origin, writes), origin, writes, |writes|, k);
      } else {
        UndoneAgree(objects, Applied(origin, writes), origin, writes, |writes|, k);
      }
    }
    SameEverywhere(UndoneForward(objects, origin, writes, |writes|) - BackupsOf(items),
                   UndoneForward(Applied(origin, writes), origin, writes, |writes|));
    SameEverywhere(objects - BackupsOf(items), Applied(origin, writes));
  }

  /** One item put back: the backup copied over its key and dropped, or the new object removed. */
  lemma ItemUndone(items: seq<Item>, origin: Objects, writes: seq<Write>, start: Objects, i: nat)
    requires Logs(items, origin, writes, start) && i < |items|
    ensures UndoneForward(start, origin, writes, i + 1) - BackupsOf(items[..i + 1])
         == (var m := UndoneForward(start, origin, writes, i) - BackupsOf(items[..i]);
             if items[i].backup.None? then m - {items[i].key}
             else With(m, items[i].key, Get(start, items[i].backup.value)) - {items[i].backup.value})
  {
    assert items[..i + 1] == items[..i] + [items[i]];
    assert BackupsOf(items[..i + 1]) ==
      BackupsOf(items[..i]) + if items[i].backup.Some? then {items[i].backup.value} else {} by {
      forall k | k in BackupsOf(items[..i]) ensures k in BackupsOf(items[..i + 1]) {
        var j :| 0 <= j < i && items[..i][j].backup == Some(k);
        assert items[..i + 1][j].backup == Some(k);
      }
      assert items[..i + 1][i] == items[i];
      forall k | k in BackupsOf(items[..i + 1]) && items[i].backup != Some(k) ensures k in BackupsOf(items[..i]) {
        var j :| 0 <= j < i + 1 && items[..i + 1][j].backup == Some(k);
        assert items[..i][j].backup == Some(k);
      }
    }
    assert items[i].key !in BackupsOf(items[..i]);
    if items[i].backup.Some? {
      assert items[i].key != items[i].backup.value;
    }
  }

  lemma NewKeyWasNotThere(items: seq<Item>, origin: Objects, writes: seq<Write>, objects: Objects, i: nat)
    requires Logs(items, origin, writes, objects) && i < |items| && items[i].backup.None?
    ensures items[i].key !in origin
  {
    AppliedOnlyAdds(origin, writes[..i]);
  }

  /** Backups from item `i` on are still what they were. */
  ghost predicate BackupsLeft(items: seq<Item>, i: nat, start: Objects, objects: Objects) {
    forall j :: i <= j < |items| && items[j].backup.Some? ==> Get(objects, items[j].backup.value) == Get(start, items[j].backup.value)
  }

  class ObjectReplacer {
    const bucket: Bucket
    var items: seq<Item>

    /** The store when the replacer was made, and the writes it has done since. */
    ghost const origin: Objects
    ghost var writes: seq<Write>

    ghost predicate Valid()
      reads this, bucket
    {
      && bucket.Valid()
      && (forall k :: k in origin && k.BackupOf? ==> k.token < bucket.nextToken)
      && Logs(items, origin, writes, bucket.objects)
    }

    ghost predicate Exact()
      reads this, bucket
    {
      Matches(items, origin, writes, bucket.objects)
    }

    constructor (bucket: Bucket)
      requires bucket.Valid()
      ensures this.bucket == bucket && origin == bucket.objects && writes == []
      ensures Valid() && Exact()
    {
      this.bucket := bucket;
      items, writes, origin := [], [], bucket.objects;
    }

    /** The first half of Replace: copies what is at the key, if anything, to a new backup key. */
    method BackUp(key: Key) returns (outcome: Outcome, backup: Option<Key>)
      requires Valid() && key.Named?
      modifies bucket
      ensures Valid()
      ensures backup.Some? ==> backup.value.BackupOf? && backup.value !in old(bucket.objects) && backup.value !in origin
      ensures backup.Some? ==> key in old(bucket.objects)
      ensures match backup
        case None => bucket.objects == old(bucket.objects)
        case Some(b) => Settles(outcome, old(bucket.objects), With(old(bucket.objects), b, Get(old(bucket.objects), key)), bucket.objects)
      ensures outcome.Done? ==> backup.Some? == (key in old(bucket.objects))
    {
      backup := None;
      var answered, found := bucket.Exists(key);
      if !answered {
        return Refused, None;
      }
      if !found {
        return Done, None;
      }
      var b := BackupOf(key.name, bucket.nextToken);
      bucket.nextToken := bucket.nextToken + 1;
      outcome := bucket.Copy(key, b);
      backup := Some(b);
      LogsStayIfBackupsStay(items, origin, writes, old(bucket.objects), bucket.objects);
    }

    /**
      Replace: `ok` is what the caller sees; `put` is what became of its write, refused also
      when it was not reached; `clean` says that no failed operation took effect and that the
      backup of a failed write was removed.  A failed call leaves the previous object
      untouched if and only if its write was refused or wrote the same object again.
    */
    method Replace(key: Key, content: Object) returns (ok: bool, ghost put: Outcome, ghost clean: bool)
      requires Valid() && Exact() && key.Named?
      modifies this`items, this`writes, bucket
      ensures Valid() && (clean ==> Exact())
      ensures writes == if ok then old(writes) + [Write(key, content)] else old(writes)
      ensures SameExcept(old(bucket.objects), bucket.objects, {key})
      ensures key in old(bucket.objects) ==> key in bucket.objects
      ensures ok <==> put.Done?
      ensures ok ==> clean && Get(bucket.objects, key) == Some(content)
      ensures !ok ==>
        (Get(bucket.objects, key) == Get(old(bucket.objects), key)
        <==> put.Refused? || Get(old(bucket.objects), key) == Some(content))
      ensures !ok ==> items == old(items)
    {
      var copied, backup := BackUp(key);
      if !copied.Done? {
        return false, Refused, backup.None? || copied.Refused?;
      }
      var written := bucket.Put(key, content);
      put := written;
      if !written.Done? {
        ok, clean := false, written.Refused?;
        if backup.Some? {
          var removed := bucket.Remove(backup.value);
          clean := clean && !removed.Refused?;
        }
        LogsStayIfBackupsStay(items, origin, writes, old(bucket.objects), bucket.objects);
        assert clean ==> bucket.objects == old(bucket.objects);
        return;
      }
      var item := Item(key, backup);
      assert bucket.objects == AfterReplace(old(bucket.objects), item, content);
      NewItemIsLogged(items, origin, writes, old(bucket.objects), item, content);
      NewItemIsMatched(items, origin, writes, old(bucket.objects), item, content);
      items, writes := items + [item], writes + [Write(key, content)];
      ok, clean := true, true;
    }

    /** One round of Restore's loop. */
    method RestoreItem(i: nat, ghost start: Objects) returns (ghost clean: bool)
      requires bucket.Valid() && i < |items| && Logs(items, origin, writes, start)
      requires BackupsLeft(items, i, start, bucket.objects)
      modifies bucket
      ensures bucket.Valid() && bucket.nextToken == old(bucket.nextToken)
      ensures BackupsLeft(items, i + 1, start, bucket.objects)
      ensures clean && items[i].backup.None? ==> bucket.objects == old(bucket.objects) - {items[i].key}
      ensures clean && items[i].backup.Some? ==> var b := items[i].backup.value;
        bucket.objects == With(old(bucket.objects), items[i].key, Get(start, b)) - {b}
      ensures SameExcept(old(bucket.objects), bucket.objects, {items[i].key})
      ensures items[i].key in origin && items[i].key in old(bucket.objects) ==> items[i].key in bucket.objects
    {
      var key := items[i].key;
      if items[i].backup.None? {
        NewKeyWasNotThere(items, origin, writes, start, i);
        var removed := bucket.Remove(key);
        clean := removed.Done?;
      } else {
        var b := items[i].backup.value;
        var copied := bucket.Copy(b, key);
        var removed := bucket.Remove(b);
        clean := copied.Done? && removed.Done?;
      }
    }

    /**
      Restore: with every operation succeeding (`clean`), each key gets back what its last
      write had found and the backups are gone; whatever fails, no object the origin had at
      a live key is lost.
    */
    method Restore() returns (ghost clean: bool)
      requires Valid()
      modifies this`items, this`writes, bucket
      ensures bucket.Valid() && bucket.nextToken == old(bucket.nextToken) && items == [] && writes == []
      ensures old(Exact()) && clean ==>
        bucket.objects == UndoneForward(Applied(origin, old(writes)), origin, old(writes), |old(writes)|)
      ensures SameExcept(old(bucket.objects), bucket.objects, KeysOf(old(writes)))
      ensures forall k: Key :: k.Named? && k in origin && k in old(bucket.objects) ==> k in bucket.objects
    {
      clean := true;
      for i := 0 to |items|
        invariant bucket.Valid() && bucket.nextToken == old(bucket.nextToken)
        invariant items == old(items) && writes == old(writes)
        invariant BackupsLeft(items, i, old(bucket.objects), bucket.objects)
        invariant clean ==>
          bucket.objects == UndoneForward(old(bucket.objects), origin, writes, i) - BackupsOf(items[..i])
        invariant SameExcept(old(bucket.objects), bucket.objects, KeysOf(writes))
        invariant forall k: Key :: k.Named? && k in origin && k in old(bucket.objects) ==> k in bucket.objects
      {
        ItemUndone(items, origin, writes, old(bucket.objects), i);
        assert items[i].key in KeysOf(writes);
        var itemClean := RestoreItem(i, old(bucket.objects));
        clean := clean && itemClean;
      }
      if old(Exact()) {
        BackupsAreExtra(items, origin, writes, old(bucket.objects));
        assert items[..|items|] == items;
      }
      items, writes := [], [];
    }

    /** Discard: drops the backups; live objects stay as written. */
    method Discard() returns (ghost clean: bool)
      requires Valid()
      modifies this`items, this`writes, bucket
      ensures bucket.Valid() && bucket.nextToken == old(bucket.nextToken) && items == [] && writes == []
      ensures old(Exact()) && clean ==> bucket.objects == Applied(origin, old(writes))
      ensures SameExcept(old(bucket.objects), bucket.objects, {})
    {
      clean := true;
      for i := 0 to |items|
        invariant bucket.Valid() && bucket.nextToken == old(bucket.nextToken)
        invariant items == old(items) && writes == old(writes)
        invariant clean ==> bucket.objects == old(bucket.objects) - BackupsOf(items[..i])
        invariant SameExcept(old(bucket.objects), bucket.objects, {})
      {
        if items[i].backup.Some? {
          var removed := bucket.Remove(items[i].backup.value);
          clean := clean && removed.Done?;
        }
        assert items[..i + 1] == items[..i] + [items[i]];
      }
      if old(Exact()) {
        BackupsAreExtra(items, origin, writes, old(bucket.objects));
        assert items[..|items|] == items;
      }
      items, writes := [], [];
    }
  }
}
