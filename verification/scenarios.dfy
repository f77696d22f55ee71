/** Worked examples of `get` on concrete Consul listings, with the store
    configured with prefix `config` and the default delimiter `/`. */
module Scenarios {
  import opened Results
  import opened Strings
  import opened JsonTree
  import opened TreeBuilder
  import opened ConsulStore

  function ConfigStore(): Store {
    NewStore(None, Some("config"))
  }

  function Entry(key: string, value: string): KeyValue {
    KeyValue(key, Some(value))
  }

  /** Splitting on `/` ends the first part at the first `/`. */
  lemma SlashFirst(x: string, y: string)
    requires '/' !in x
    ensures Split(x + "/" + y, "/") == [x] + Split(y, "/")
  {
    forall i | 0 <= i < |x|
      ensures !OccursAt("/", x + "/" + y, i)
    {
      assert (x + "/" + y)[i] == x[i];
    }
    SplitAtFirst(x, "/", y);
  }

  /** A string without `/` is one part. */
  lemma SlashNone(x: string)
    requires '/' !in x
    ensures Split(x, "/") == [x]
  {
    forall i | 0 <= i <= |x| - 1
      ensures !OccursAt("/", x, i)
    {
      assert x[i..i + 1] == [x[i]];
    }
    SplitWithout(x, "/");
  }

  lemma ConfigStoreValues()
    ensures ConfigStore() == Store("/", "config/")
  {
  }

  /** The path of `config/<x>/<y>` is `[x, y]`. */
  lemma TwoLevelKey(x: string, y: string)
    requires '/' !in x && '/' !in y && y != ""
    ensures !IsMarker(Entry("config/" + x + "/" + y, ""), "/")
    ensures Segments("config/" + x + "/" + y, 7, "/") == [x, y]
  {
    var key := "config/" + x + "/" + y;
    assert key[|key| - 1] == y[|y| - 1];
    assert key[7..] == x + "/" + y;
    SlashFirst(x, y);
    SlashNone(y);
  }

  /** The path of `config/<x>` is `[x]`. */
  lemma OneLevelKey(x: string)
    requires '/' !in x && x != ""
    ensures !IsMarker(Entry("config/" + x, ""), "/")
    ensures Segments("config/" + x, 7, "/") == [x]
  {
    var key := "config/" + x;
    assert key[|key| - 1] == x[|x| - 1];
    assert key[7..] == x;
    SlashNone(x);
  }

  /** Folding in `config/<x>` writes its value under `x`. */
  lemma StepOneLevel(entries: seq<KeyValue>, t: map<string, Json>, x: string, v: Option<string>)
    requires '/' !in x && x != ""
    requires BuildTree(entries, 7, "/") == Ok(t)
    ensures BuildTree(entries + [KeyValue("config/" + x, v)], 7, "/") == Ok(t[x := Leaf(v)])
  {
    var e := KeyValue("config/" + x, v);
    OneLevelKey(x);
    assert IsMarker(e, "/") == IsMarker(Entry(e.key, ""), "/");
    BuildTreeSnoc(entries, e, 7, "/");
  }

  /** Folding in `config/<x>/<y>` writes its value under `y` in the object
      `ChildObject` finds under `x`. */
  lemma StepTwoLevels(entries: seq<KeyValue>, t: map<string, Json>, x: string, y: string, v: Option<string>, c: map<string, Json>)
    requires '/' !in x && '/' !in y && y != ""
    requires BuildTree(entries, 7, "/") == Ok(t)
    requires ChildObject(t, x) == Ok(c)
    ensures BuildTree(entries + [KeyValue("config/" + x + "/" + y, v)], 7, "/") == Ok(t[x := Obj(c[y := Leaf(v)])])
  {
    var e := KeyValue("config/" + x + "/" + y, v);
    TwoLevelKey(x, y);
    assert IsMarker(e, "/") == IsMarker(Entry(e.key, ""), "/");
    assert [x, y][1..] == [y];
    assert InsertPath(c, [y], Leaf(v)) == Ok(c[y := Leaf(v)]);
    assert InsertPath(t, [x, y], Leaf(v)) == Ok(t[x := Obj(c[y := Leaf(v)])]);
    BuildTreeSnoc(entries, e, 7, "/");
  }

  /** Folding in `config/<x>/<y>` raises when a string sits under `x`. */
  lemma StepTwoLevelsBlocked(entries: seq<KeyValue>, t: map<string, Json>, x: string, y: string, v: Option<string>)
    requires '/' !in x && '/' !in y && y != ""
    requires BuildTree(entries, 7, "/") == Ok(t)
    requires x in t && t[x].Str?
    ensures BuildTree(entries + [KeyValue("config/" + x + "/" + y, v)], 7, "/") == Err(NotAnObject(x))
  {
    var e := KeyValue("config/" + x + "/" + y, v);
    TwoLevelKey(x, y);
    assert IsMarker(e, "/") == IsMarker(Entry(e.key, ""), "/");
    BuildTreeSnoc(entries, e, 7, "/");
  }

  lemma NestedTreeAfterTwo()
    ensures BuildTree([Entry("config/a/b", "1"), Entry("config/a/c", "2")], 7, "/")
      == Ok(map["a" := Obj(map["b" := Str("1"), "c" := Str("2")])])
  {
    var e1, e2 := Entry("config/a/b", "1"), Entry("config/a/c", "2");
    assert "config/" + "a" + "/" + "b" == e1.key && "config/" + "a" + "/" + "c" == e2.key;
    StepTwoLevels([], map[], "a", "b", Some("1"), map[]);
    assert [] + [e1] == [e1];
    var t1 := map["a" := Obj(map["b" := Str("1")])];
    assert ChildObject(t1, "a") == Ok(map["b" := Str("1")]);
    StepTwoLevels([e1], t1, "a", "c", Some("2"), map["b" := Str("1")]);
    assert [e1] + [e2] == [e1, e2];
    assert t1["a" := Obj(map["b" := Str("1")]["c" := Str("2")])] == map["a" := Obj(map["b" := Str("1"), "c" := Str("2")])];
  }

  /** The tree for the listing `config/a/b=1`, `config/a/c=2`, `config/d=3`. */
  lemma NestedTree()
    ensures BuildTree([Entry("config/a/b", "1"), Entry("config/a/c", "2"), Entry("config/d", "3")], 7, "/")
      == Ok(map["a" := Obj(map["b" := Str("1"), "c" := Str("2")]), "d" := Str("3")])
  {
    var e1, e2, e3 := Entry("config/a/b", "1"), Entry("config/a/c", "2"), Entry("config/d", "3");
    NestedTreeAfterTwo();
    assert "config/" + "d" == e3.key;
    StepOneLevel([e1, e2], map["a" := Obj(map["b" := Str("1"), "c" := Str("2")])], "d", Some("3"));
    assert [e1, e2] + [e3] == [e1, e2, e3];
  }

  /** Entries under a common `a` build one shared object `a`. */
  lemma NestedEntriesShareObject()
    ensures Get<string>(ConfigStore(), ClientSucceeded(Present(
      [Entry("config/a/b", "1"), Entry("config/a/c", "2"), Entry("config/d", "3")])))
      == Completed(Obj(map["a" := Obj(map["b" := Str("1"), "c" := Str("2")]), "d" := Str("3")]))
  {
    ConfigStoreValues();
    NestedTree();
  }

  /** The tree for a directory marker `config/a/` followed by `config/a/b=x`. */
  lemma MarkerTree()
    ensures BuildTree([KeyValue("config/a/", None), Entry("config/a/b", "x")], 7, "/")
      == Ok(map["a" := Obj(map["b" := Str("x")])])
  {
    var marker, e := KeyValue("config/a/", None), Entry("config/a/b", "x");
    assert marker.key[|marker.key| - 1..] == "/";
    BuildTreeSnoc([], marker, 7, "/");
    assert [] + [marker] == [marker];
    assert "config/" + "a" + "/" + "b" == e.key;
    StepTwoLevels([marker], map[], "a", "b", Some("x"), map[]);
    assert [marker] + [e] == [marker, e];
  }

  /** A directory marker is skipped: `config/a/` (no value) then `config/a/b=x`
      gives `{"a": {"b": "x"}}`. */
  lemma MarkerSkipped()
    ensures Get<string>(ConfigStore(), ClientSucceeded(Present(
      [KeyValue("config/a/", None), Entry("config/a/b", "x")])))
      == Completed(Obj(map["a" := Obj(map["b" := Str("x")])]))
  {
    ConfigStoreValues();
    MarkerTree();
  }

  /** A string on the way is not overwritten: `config/a=1` then
      `config/a/b=2` makes `getJsonObject("a")` fail its cast, so the
      exception escapes instead of a document being delivered. */
  lemma StringOnPathRaises()
    ensures Get<string>(ConfigStore(), ClientSucceeded(Present(
      [Entry("config/a", "1"), Entry("config/a/b", "2")])))
      == Raised(NotAnObject("a"))
  {
    ConfigStoreValues();
    var e1, e2 := Entry("config/a", "1"), Entry("config/a/b", "2");
    assert "config/" + "a" == e1.key && "config/" + "a" + "/" + "b" == e2.key;
    StepOneLevel([], map[], "a", Some("1"));
    assert [] + [e1] == [e1];
    StepTwoLevelsBlocked([e1], map["a" := Str("1")], "a", "b", Some("2"));
    assert [e1] + [e2] == [e1, e2];
  }

  /** In the other order the shorter key overwrites the object: `config/a/b=2`
      then `config/a=1` gives `{"a": "1"}`. */
  lemma ShorterKeyOverwrites()
    ensures Get<string>(ConfigStore(), ClientSucceeded(Present(
      [Entry("config/a/b", "2"), Entry("config/a", "1")])))
      == Completed(Obj(map["a" := Str("1")]))
  {
    ConfigStoreValues();
    var e1, e2 := Entry("config/a/b", "2"), Entry("config/a", "1");
    assert "config/" + "a" + "/" + "b" == e1.key && "config/" + "a" == e2.key;
    StepTwoLevels([], map[], "a", "b", Some("2"), map[]);
    assert [] + [e1] == [e1];
    var t1 := map["a" := Obj(map["b" := Str("2")])];
    StepOneLevel([e1], t1, "a", Some("1"));
    assert [e1] + [e2] == [e1, e2];
    assert t1["a" := Str("1")] == map["a" := Str("1")];
  }

  /** A `null` on the way is replaced: `config/a` without a value, then
      `config/a/b=2`, gives `{"a": {"b": "2"}}`, because `getJsonObject`
      returns `null` for it. */
  lemma NullOnPathReplaced()
    ensures Get<string>(ConfigStore(), ClientSucceeded(Present(
      [KeyValue("config/a", None), Entry("config/a/b", "2")])))
      == Completed(Obj(map["a" := Obj(map["b" := Str("2")])]))
  {
    ConfigStoreValues();
    var e1, e2 := KeyValue("config/a", None), Entry("config/a/b", "2");
    assert "config/" + "a" == e1.key && "config/" + "a" + "/" + "b" == e2.key;
    StepOneLevel([], map[], "a", None);
    assert [] + [e1] == [e1];
    var t1 := map["a" := Null];
    assert ChildObject(t1, "a") == Ok(map[]);
    StepTwoLevels([e1], t1, "a", "b", Some("2"), map[]);
    assert [e1] + [e2] == [e1, e2];
    assert t1["a" := Obj(map["b" := Str("2")])] == map["a" := Obj(map["b" := Str("2")])];
  }

  /** With no prefix configured, an entry whose key is empty lands under the
      empty key at the root, since splitting the empty remainder gives one
      empty part. */
  lemma EmptyKeyAtRoot()
    ensures Get<string>(NewStore(None, None), ClientSucceeded(Present([Entry("", "v")])))
      == Completed(Obj(map["" := Str("v")]))
  {
    var e := Entry("", "v");
    assert NewStore(None, None) == Store("/", "");
    assert Split("", "/") == [""];
    BuildTreeSnoc([], e, 0, "/");
    assert [] + [e] == [e];
  }
}
