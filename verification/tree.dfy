/** The tree builder of `ConsulConfigStore.getTree`: a left fold over the
    listed key/value pairs that inserts each value at the path its key
    spells out below the prefix. */
module TreeBuilder {
  import opened Results
  import opened Strings
  import opened JsonTree

  /** One Consul entry; a `None` value is a key stored without a payload. */
  datatype KeyValue = KeyValue(key: string, value: Option<string>)

  /** The exceptions the Java code raises while building. */
  datatype TreeError =
    /** `getJsonObject` met a string where an intermediate object is needed
        (a `ClassCastException`). */
    | NotAnObject(segment: string)
    /** `substring(prefix)` on a key shorter than the prefix (a
        `StringIndexOutOfBoundsException`). */
    | KeyShorterThanPrefix(key: string)

  /** The JSON value `put` stores for an entry's value. */
  function Leaf(v: Option<string>): Json {
    match v
    case Some(s) => Str(s)
    case None => Null
  }

  /** A key ending with the delimiter marks a directory and carries no leaf. */
  predicate IsMarker(e: KeyValue, d: string) {
    EndsWith(e.key, d)
  }

  /** The path a key spells out: what remains after the prefix, split on
      the delimiter. */
  function Segments(key: string, prefixLen: nat, d: string): seq<string>
    requires prefixLen <= |key| && |d| > 0
  {
    Split(key[prefixLen..], d)
  }

  /** The object to descend into under `k`, as `getJsonObject(k)` followed
      by the `null` test finds it: an existing object is reused; a missing
      key or an explicit `null` gives a fresh empty object; a string cannot
      be cast. */
  function ChildObject(m: map<string, Json>, k: string): (r: Result<map<string, Json>, TreeError>)
    ensures r.Err? <==> k in m && m[k].Str?
    ensures r.Err? ==> r.error == NotAnObject(k)
    ensures k in m && m[k].Obj? ==> r == Ok(m[k].fields)
    ensures k !in m || m[k].Null? ==> r == Ok(map[])
  {
    if k in m then
      match m[k]
      case Obj(c) => Ok(c)
      case Null => Ok(map[])
      case Str(_) => Err(NotAnObject(k))
    else Ok(map[])
  }

  /** Writes `v` at `path` below the object `m`, creating or reusing the
      intermediate objects. Only the first key of `m` can change, and on
      success it is present. */
  function InsertPath(m: map<string, Json>, path: seq<string>, v: Json): (r: Result<map<string, Json>, TreeError>)
    requires |path| >= 1
    ensures r.Ok? ==> r.value.Keys == m.Keys + {path[0]}
    ensures r.Ok? ==> forall k :: k in m && k != path[0] ==> r.value[k] == m[k]
    decreases |path|
  {
    if |path| == 1 then Ok(m[path[0] := v])
    else
      var child :- ChildObject(m, path[0]);
      var sub :- InsertPath(child, path[1..], v);
      Ok(m[path[0] := Obj(sub)])
  }

  /** After a successful insertion, the path leads to the inserted value. */
  lemma {:induction false} InsertThenLookup(m: map<string, Json>, path: seq<string>, v: Json)
    requires |path| >= 1
    requires InsertPath(m, path, v).Ok?
    ensures Lookup(Obj(InsertPath(m, path, v).value), path) == Some(v)
    decreases |path|
  {
    if |path| > 1 {
      var child := ChildObject(m, path[0]).value;
      InsertThenLookup(child, path[1..], v);
    }
  }

  /** The value at `p` below `j` is a string. */
  predicate StrAt(j: Json, p: seq<string>) {
    Lookup(j, p).Some? && Lookup(j, p).value.Str?
  }

  /** Some proper, non-empty prefix of `path` already leads to a string
      below `m`. */
  ghost predicate ScalarOnPath(m: map<string, Json>, path: seq<string>) {
    exists i :: 1 <= i < |path| && StrAt(Obj(m), path[..i])
  }

  /** Below the first key, looking up in the child that `ChildObject`
      returns agrees with looking up in `m` about where strings are. */
  lemma StrAtThroughChild(m: map<string, Json>, path: seq<string>, i: int)
    requires |path| >= 2 && 1 <= i < |path| - 1
    requires ChildObject(m, path[0]).Ok?
    ensures StrAt(Obj(ChildObject(m, path[0]).value), path[1..][..i]) == StrAt(Obj(m), path[..i + 1])
  {
    var k := path[0];
    var c := ChildObject(m, k).value;
    var q := path[1..][..i];
    assert path[..i + 1] == [k] + q;
    assert Lookup(Obj(m), path[..i + 1]) == if k in m then Lookup(m[k], q) else None;
    if k in m && m[k].Null? {
      assert Lookup(Obj(c), q) == None;
    }
  }

  /** Insertion fails exactly when a string already sits on a proper
      prefix of the path; an explicit `null` there is replaced instead. */
  lemma {:induction false} InsertFailsIff(m: map<string, Json>, path: seq<string>, v: Json)
    requires |path| >= 1
    ensures InsertPath(m, path, v).Err? <==> ScalarOnPath(m, path)
    decreases |path|
  {
    if |path| > 1 {
      var k := path[0];
      assert path[..1] == [k];
      assert Lookup(Obj(m), [k]) == if k in m then Some(m[k]) else None;
      if k in m && m[k].Str? {
        assert StrAt(Obj(m), path[..1]);
      } else {
        var c := ChildObject(m, k).value;
        InsertFailsIff(c, path[1..], v);
        if ScalarOnPath(c, path[1..]) {
          var i :| 1 <= i < |path[1..]| && StrAt(Obj(c), path[1..][..i]);
          StrAtThroughChild(m, path, i);
          assert StrAt(Obj(m), path[..i + 1]);
        }
        if ScalarOnPath(m, path) {
          var i :| 1 <= i < |path| && StrAt(Obj(m), path[..i]);
          assert i != 1;
          StrAtThroughChild(m, path, i - 1);
          assert StrAt(Obj(c), path[1..][..i - 1]);
        }
      }
    }
  }

  /** Insertion changes nothing off its path: a lookup path that is neither
      a prefix of `path` nor extends it sees the same value as before —
      every other top-level key and every sibling along the path. */
  lemma {:induction false} InsertFrame(m: map<string, Json>, path: seq<string>, v: Json, q: seq<string>)
    requires |path| >= 1
    requires InsertPath(m, path, v).Ok?
    requires !(q <= path) && !(path <= q)
    ensures Lookup(Obj(InsertPath(m, path, v).value), q) == Lookup(Obj(m), q)
    decreases |path|
  {
    var m' := InsertPath(m, path, v).value;
    var k := path[0];
    if q[0] != k {
    } else {
      var c := ChildObject(m, k).value;
      var sub := InsertPath(c, path[1..], v).value;
      assert m' == m[k := Obj(sub)];
      InsertFrame(c, path[1..], v, q[1..]);
      if k in m && m[k].Null? {
        assert Lookup(Obj(c), q[1..]) == None;
      }
    }
  }

  /** Entries sharing a leading path reuse the object already there: if
      `p` leads to an object before inserting at `p + q`, it leads to an
      object afterwards that keeps every old key and gains only `q[0]`. */
  lemma {:induction false} InsertReusesObject(m: map<string, Json>, p: seq<string>, q: seq<string>, v: Json, c: map<string, Json>)
    requires |q| >= 1
    requires InsertPath(m, p + q, v).Ok?
    requires Lookup(Obj(m), p) == Some(Obj(c))
    ensures match Lookup(Obj(InsertPath(m, p + q, v).value), p)
      case Some(Obj(c')) =>
        c'.Keys == c.Keys + {q[0]} && forall k :: k in c && k != q[0] ==> c'[k] == c[k]
      case _ => false
    decreases |p|
  {
    if p == [] {
      assert p + q == q;
    } else {
      var k := p[0];
      assert (p + q)[0] == k && (p + q)[1..] == p[1..] + q;
      assert m[k].Obj? by {
        if p[1..] != [] {
          assert Lookup(Obj(m), p) == Lookup(m[k], p[1..]);
        }
      }
      var ck := m[k].fields;
      InsertReusesObject(ck, p[1..], q, v, c);
    }
  }

  /** Processes one entry as the body of the `for` loop does: skips a
      directory marker, otherwise writes the entry's value at its path.
      Right afterwards that path leads to the value, whatever was there. */
  function ProcessEntry(tree: map<string, Json>, e: KeyValue, prefixLen: nat, d: string): (r: Result<map<string, Json>, TreeError>)
    ensures IsMarker(e, d) ==> r == Ok(tree)
    ensures !IsMarker(e, d) && |e.key| < prefixLen ==> r == Err(KeyShorterThanPrefix(e.key))
    ensures r.Ok? && !IsMarker(e, d) ==>
      && prefixLen <= |e.key| && |d| > 0
      && Lookup(Obj(r.value), Segments(e.key, prefixLen, d)) == Some(Leaf(e.value))
  {
    if EndsWith(e.key, d) then Ok(tree)
    else if |e.key| < prefixLen then Err(KeyShorterThanPrefix(e.key))
    else
      var path := Segments(e.key, prefixLen, d);
      var r := InsertPath(tree, path, Leaf(e.value));
      if r.Ok? then InsertThenLookup(tree, path, Leaf(e.value)); r else r
  }

  /** One entry raises exactly when it is not a directory marker and either
      its key is shorter than the prefix or a string already sits on a
      proper prefix of its path. */
  lemma ProcessEntryFailsIff(tree: map<string, Json>, e: KeyValue, prefixLen: nat, d: string)
    ensures ProcessEntry(tree, e, prefixLen, d).Err? <==>
      && !IsMarker(e, d)
      && (|e.key| < prefixLen || (|d| > 0 && ScalarOnPath(tree, Segments(e.key, prefixLen, d))))
  {
    if !IsMarker(e, d) && prefixLen <= |e.key| {
      InsertFailsIff(tree, Segments(e.key, prefixLen, d), Leaf(e.value));
    }
  }

  /** The tree `getTree` builds from the listed entries: the entries
      processed in order from an empty object, or the first exception. */
  function BuildTree(entries: seq<KeyValue>, prefixLen: nat, d: string): (r: Result<map<string, Json>, TreeError>)
    ensures entries == [] ==> r == Ok(map[])
    ensures |entries| == 1 ==> r == ProcessEntry(map[], entries[0], prefixLen, d)
    decreases |entries|
  {
    if entries == [] then Ok(map[])
    else
      var t :- BuildTree(entries[..|entries| - 1], prefixLen, d);
      ProcessEntry(t, entries[|entries| - 1], prefixLen, d)
  }

  /** A successful build saw only non-marker keys at least as long as the
      prefix; a failed one was stopped by some non-marker entry. */
  lemma {:induction false} BuildTreeOutcome(entries: seq<KeyValue>, prefixLen: nat, d: string)
    ensures BuildTree(entries, prefixLen, d).Ok? ==>
      forall i :: 0 <= i < |entries| && !IsMarker(entries[i], d) ==> prefixLen <= |entries[i].key|
    ensures BuildTree(entries, prefixLen, d).Err? ==>
      exists i :: 0 <= i < |entries| && !IsMarker(entries[i], d)
    decreases |entries|
  {
    if entries != [] {
      var init := entries[..|entries| - 1];
      BuildTreeOutcome(init, prefixLen, d);
      assert forall i :: 0 <= i < |init| ==> init[i] == entries[i];
      if BuildTree(init, prefixLen, d).Err? {
        var i :| 0 <= i < |init| && !IsMarker(init[i], d);
        assert !IsMarker(entries[i], d);
      }
    }
  }

  /** Building from `entries` then `e` processes `e` on top of the tree
      built from `entries`. */
  lemma BuildTreeSnoc(entries: seq<KeyValue>, e: KeyValue, prefixLen: nat, d: string)
    ensures BuildTree(entries, prefixLen, d).Ok? ==>
      BuildTree(entries + [e], prefixLen, d) == ProcessEntry(BuildTree(entries, prefixLen, d).value, e, prefixLen, d)
    ensures BuildTree(entries, prefixLen, d).Err? ==>
      BuildTree(entries + [e], prefixLen, d) == BuildTree(entries, prefixLen, d)
  {
    assert (entries + [e])[..|entries|] == entries;
  }

  /** Once building has failed, later entries do not change the outcome:
      the exception ends the loop. */
  lemma {:induction false} FailureSticks(entries: seq<KeyValue>, more: seq<KeyValue>, prefixLen: nat, d: string)
    requires BuildTree(entries, prefixLen, d).Err?
    ensures BuildTree(entries + more, prefixLen, d) == BuildTree(entries, prefixLen, d)
    decreases |more|
  {
    if more != [] {
      var init := more[..|more| - 1];
      FailureSticks(entries, init, prefixLen, d);
      assert entries + more == (entries + init) + [more[|more| - 1]];
      BuildTreeSnoc(entries + init, more[|more| - 1], prefixLen, d);
    } else {
      assert entries + more == entries;
    }
  }

  /** Right after an entry that is not a directory marker is processed, its
      path leads to its value (possibly `null`); so among entries with the
      same path the last one wins. */
  lemma LookupAfterEntry(entries: seq<KeyValue>, e: KeyValue, prefixLen: nat, d: string)
    requires BuildTree(entries + [e], prefixLen, d).Ok?
    requires !IsMarker(e, d)
    ensures prefixLen <= |e.key| && |d| > 0
    ensures Lookup(Obj(BuildTree(entries + [e], prefixLen, d).value), Segments(e.key, prefixLen, d)) == Some(Leaf(e.value))
  {
    BuildTreeSnoc(entries, e, prefixLen, d);
  }

  /** The entries with the directory markers removed, in order. */
  function RemoveMarkers(entries: seq<KeyValue>, d: string): (kept: seq<KeyValue>)
    ensures |kept| <= |entries|
    ensures forall e :: e in kept <==> e in entries && !IsMarker(e, d)
    decreases |entries|
  {
    if entries == [] then []
    else
      var init := entries[..|entries| - 1];
      var last := entries[|entries| - 1];
      assert entries == init + [last];
      if IsMarker(last, d) then RemoveMarkers(init, d) else RemoveMarkers(init, d) + [last]
  }

  /** Directory markers do not affect the result: building from a list
      equals building from it with the markers removed. */
  lemma {:induction false} MarkersIgnored(entries: seq<KeyValue>, prefixLen: nat, d: string)
    ensures BuildTree(entries, prefixLen, d) == BuildTree(RemoveMarkers(entries, d), prefixLen, d)
    decreases |entries|
  {
    if entries != [] {
      var init := entries[..|entries| - 1];
      var last := entries[|entries| - 1];
      assert entries == init + [last];
      MarkersIgnored(init, prefixLen, d);
      BuildTreeSnoc(init, last, prefixLen, d);
      if !IsMarker(last, d) {
        BuildTreeSnoc(RemoveMarkers(init, d), last, prefixLen, d);
      }
    }
  }

  /** A list holding nothing but directory markers — the empty list
      included — builds the empty object. */
  lemma {:induction false} OnlyMarkersBuildEmpty(entries: seq<KeyValue>, prefixLen: nat, d: string)
    requires forall i :: 0 <= i < |entries| ==> IsMarker(entries[i], d)
    ensures BuildTree(entries, prefixLen, d) == Ok(map[])
    decreases |entries|
  {
    if entries != [] {
      OnlyMarkersBuildEmpty(entries[..|entries| - 1], prefixLen, d);
    }
  }

  /** `getTree` as the Java loop runs it: one pass over the entries,
      stopping at the first exception. */
  method GetTree(entries: seq<KeyValue>, prefixLen: nat, d: string) returns (r: Result<Json, TreeError>)
    ensures BuildTree(entries, prefixLen, d).Ok? ==> r == Ok(Obj(BuildTree(entries, prefixLen, d).value))
    ensures BuildTree(entries, prefixLen, d).Err? ==> r == Err(BuildTree(entries, prefixLen, d).error)
  {
    var tree: map<string, Json> := map[];
    var i := 0;
    while i < |entries|
      invariant 0 <= i <= |entries|
      invariant BuildTree(entries[..i], prefixLen, d) == Ok(tree)
    {
      BuildTreeSnoc(entries[..i], entries[i], prefixLen, d);
      assert entries[..i + 1] == entries[..i] + [entries[i]];
      var next := ProcessEntry(tree, entries[i], prefixLen, d);
      if next.Err? {
        FailureSticks(entries[..i + 1], entries[i + 1..], prefixLen, d);
        assert entries[..i + 1] + entries[i + 1..] == entries;
        return Err(next.error);
      }
      tree := next.value;
      i := i + 1;
    }
    assert entries[..i] == entries;
    return Ok(Obj(tree));
  }
}
