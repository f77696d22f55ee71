# Consul configuration store — Dafny model

This project models the logic of `ConsulConfigStore`, the Vert.x Config
backend that reads every key under a prefix from Consul and turns the flat
listing into a nested JSON configuration document. It has three parts:

- the **prefix normaliser**, which makes a configured prefix end with the delimiter;
- the **tree builder** (`getTree`), a left fold over the listed `(key, value)`
  pairs. It skips directory markers (keys ending with the delimiter), strips
  the prefix, splits the rest of the key on the delimiter, and writes the
  value at that path. Intermediate objects are created or reused on the way;
- the **result dispatch** of `get`, which maps the Consul client's reply to
  the store's outcome: the client's failure, the built document, or `{}`
  when the prefix is absent.

Files (one module each):

- `results.dfy` — `Option` (Java's nullable references) and `Result` (a value or the exception raised).
- `strings.dfy` — `StartsWith`, `EndsWith`, a literal `Split` on the delimiter, and `Join`, which undoes `Split`.
- `json.dfy` — the document: `Json = Null | Str | Obj(map)`, and `Lookup` along a key path.
- `tree.dfy` — `InsertPath` (the inner loop), `ProcessEntry` (one iteration), `BuildTree` (the fold), and `GetTree` (the loop as a method).
- `store.dfy` — `NormalizePrefix`, the constructor's configuration `NewStore`, and `Get`.
- `scenarios.dfy` — worked listings: shared objects, a skipped marker, a string on the path, an overwrite, a `null` on the path, and the empty key.

Two behaviours of the Java code are modelled as the code does them:

- **A collision is not resolved by overwriting.** When a string sits on an
  intermediate path, `getJsonObject` (line 82) throws, and the model
  follows the code. Say `a` holds a string and a later key is `a/b`: then
  `getJsonObject("a")` casts the string to `JsonObject`. The model returns
  `Err(NotAnObject("a"))`, and `Get` yields `Raised`. The exception escapes
  the client's callback, so the completion handler is never called. An
  explicit `null` on the path is different: `getJsonObject` returns `null`
  for it, so it is replaced by a fresh object. The opposite order does
  overwrite: a later shorter key replaces an object (line 80).
- **A key shorter than the prefix** makes `substring` (line 76) throw. The
  model returns `Err(KeyShorterThanPrefix(key))`. The marker test runs
  first, so a short key that ends with the delimiter is still skipped.

An empty delimiter needs no precondition: every key ends with `""`, so every
entry is skipped and the document is `{}`. Splitting is therefore only ever
done with a non-empty delimiter.

## Model

| member | source | states |
|---|---|---|
| Strings.Split | vertx-config-consul/src/main/java/io/vertx/config/consul/ConsulConfigStore.java:76 | a split yields at least one part; `JoinSplit`, `SplitSingleIff` and `SplitAtFirst` pin its parts down completely |
| Strings.JoinSplit | vertx-config-consul/src/main/java/io/vertx/config/consul/ConsulConfigStore.java:76 | joining the parts of a split with the delimiter gives back the split string, so splitting loses nothing |
| Strings.SplitSingleIff | vertx-config-consul/src/main/java/io/vertx/config/consul/ConsulConfigStore.java:76 | a string splits into one part exactly when the delimiter does not occur in it, and that part is the whole string (so `""` gives `[""]`) |
| Strings.SplitLastPart | vertx-config-consul/src/main/java/io/vertx/config/consul/ConsulConfigStore.java:72-76 | the last part is empty only if the string is empty or ends with the delimiter, so for the keys that pass the marker test there is no trailing empty part for Java's split to drop |
| Strings.SplitAtFirst | vertx-config-consul/src/main/java/io/vertx/config/consul/ConsulConfigStore.java:76 | the first part runs up to the first occurrence of the delimiter, and the rest is split the same way |
| TreeBuilder.ChildObject | vertx-config-consul/src/main/java/io/vertx/config/consul/ConsulConfigStore.java:82-86 | the object to descend into: an existing object is reused, a missing key or an explicit `null` gives a fresh empty object, and a string fails with `NotAnObject` for that key |
| TreeBuilder.InsertPath | vertx-config-consul/src/main/java/io/vertx/config/consul/ConsulConfigStore.java:77-88 | writing along a path touches only the path's first key at the top level: afterwards the keys are the old keys plus that one, and every other key keeps its value |
| TreeBuilder.InsertThenLookup | vertx-config-consul/src/main/java/io/vertx/config/consul/ConsulConfigStore.java:77-88 | after a successful insertion, following the path leads to the written value |
| TreeBuilder.InsertFailsIff | vertx-config-consul/src/main/java/io/vertx/config/consul/ConsulConfigStore.java:82-87 | insertion fails (the `getJsonObject` cast) exactly when a proper prefix of the path already leads to a string; a missing key or a `null` there does not fail |
| TreeBuilder.InsertFrame | vertx-config-consul/src/main/java/io/vertx/config/consul/ConsulConfigStore.java:75-88 | a lookup path that is neither a prefix nor an extension of the written path sees the same value before and after: other top-level keys and siblings along the path are unchanged |
| TreeBuilder.InsertReusesObject | vertx-config-consul/src/main/java/io/vertx/config/consul/ConsulConfigStore.java:82-87 | if a leading path already leads to an object, afterwards it still leads to an object that keeps all of its old keys and values except the one being written, and gains only that key |
| TreeBuilder.ProcessEntry | vertx-config-consul/src/main/java/io/vertx/config/consul/ConsulConfigStore.java:72-88 | a directory marker leaves the tree unchanged; a key shorter than the prefix raises; otherwise, on success, the key's path below the prefix leads to the entry's value (or `null`) |
| TreeBuilder.ProcessEntryFailsIff | vertx-config-consul/src/main/java/io/vertx/config/consul/ConsulConfigStore.java:72-87 | one entry raises exactly when it is not a directory marker and either its key is shorter than the prefix or a string already sits on a proper prefix of its path |
| TreeBuilder.BuildTree | vertx-config-consul/src/main/java/io/vertx/config/consul/ConsulConfigStore.java:69-92 | the entries folded in order from the empty object, stopping at the first exception: the empty list gives `{}`, and a single entry is processed on the empty object |
| TreeBuilder.BuildTreeOutcome | vertx-config-consul/src/main/java/io/vertx/config/consul/ConsulConfigStore.java:71-90 | a successful build means every non-marker key was at least as long as the prefix; a failed build was stopped by some non-marker entry |
| TreeBuilder.FailureSticks | vertx-config-consul/src/main/java/io/vertx/config/consul/ConsulConfigStore.java:71-90 | once an entry has raised, later entries do not change the outcome |
| TreeBuilder.LookupAfterEntry | vertx-config-consul/src/main/java/io/vertx/config/consul/ConsulConfigStore.java:76-80 | right after an entry is folded in, its path leads to its value whatever came before, so among entries with the same path the last one wins |
| TreeBuilder.RemoveMarkers | vertx-config-consul/src/main/java/io/vertx/config/consul/ConsulConfigStore.java:72-73 | the kept entries are exactly the listed ones whose key does not end with the delimiter |
| TreeBuilder.MarkersIgnored | vertx-config-consul/src/main/java/io/vertx/config/consul/ConsulConfigStore.java:70-91 | building from a listing gives the same result as building from it with the directory markers removed |
| TreeBuilder.OnlyMarkersBuildEmpty | vertx-config-consul/src/main/java/io/vertx/config/consul/ConsulConfigStore.java:70-73 | a listing of only directory markers, the empty listing included, builds the empty object |
| TreeBuilder.GetTree | vertx-config-consul/src/main/java/io/vertx/config/consul/ConsulConfigStore.java:69-92 | the one-pass loop that stops at the first exception returns the object the fold builds, or the fold's exception |
| ConsulStore.NormalizePrefix | vertx-config-consul/src/main/java/io/vertx/config/consul/ConsulConfigStore.java:94-100 | a missing or empty prefix becomes `""`; any other prefix becomes a string that starts with it, ends with the delimiter and is at most one delimiter longer; a prefix already ending with the delimiter is kept as is |
| ConsulStore.NormalizePrefixIdempotent | vertx-config-consul/src/main/java/io/vertx/config/consul/ConsulConfigStore.java:94-100 | normalising an already normalised prefix returns it unchanged |
| ConsulStore.NewStore | vertx-config-consul/src/main/java/io/vertx/config/consul/ConsulConfigStore.java:42-43 | the delimiter defaults to `/`; the stored prefix is the configured prefix normalised with that delimiter, so it is empty or ends with the delimiter, and starts with the configured prefix |
| ConsulStore.Get | vertx-config-consul/src/main/java/io/vertx/config/consul/ConsulConfigStore.java:47-61 | the outcome is a failure exactly when the client failed, with the same cause; an absent listing gives `{}`; a present listing gives the built object, or the builder's exception when it raises |
| ConsulStore.AbsentLikeMarkersOnly | vertx-config-consul/src/main/java/io/vertx/config/consul/ConsulConfigStore.java:51-56 | an absent prefix and a present listing of only directory markers (or of nothing) produce the same `{}` |
| ConsulStore.GetHoldsLastEntry | vertx-config-consul/src/main/java/io/vertx/config/consul/ConsulConfigStore.java:50-53 | a delivered document holds the last listed entry's value (or `null`) at that entry's path below the prefix, unless the entry is a directory marker |
| Scenarios.NestedEntriesShareObject | vertx-config-consul/src/main/java/io/vertx/config/consul/ConsulConfigStore.java:69-92 | `config/a/b=1`, `config/a/c=2`, `config/d=3` under prefix `config` give `{"a": {"b": "1", "c": "2"}, "d": "3"}` |
| Scenarios.MarkerSkipped | vertx-config-consul/src/main/java/io/vertx/config/consul/ConsulConfigStore.java:72-73 | the marker `config/a/` followed by `config/a/b=x` gives `{"a": {"b": "x"}}` |
| Scenarios.StringOnPathRaises | vertx-config-consul/src/main/java/io/vertx/config/consul/ConsulConfigStore.java:82 | `config/a=1` followed by `config/a/b=2` raises on `a` instead of delivering a document |
| Scenarios.ShorterKeyOverwrites | vertx-config-consul/src/main/java/io/vertx/config/consul/ConsulConfigStore.java:80 | `config/a/b=2` followed by `config/a=1` gives `{"a": "1"}` |
| Scenarios.NullOnPathReplaced | vertx-config-consul/src/main/java/io/vertx/config/consul/ConsulConfigStore.java:82-86 | `config/a` without a value followed by `config/a/b=2` gives `{"a": {"b": "2"}}` |
| Scenarios.EmptyKeyAtRoot | vertx-config-consul/src/main/java/io/vertx/config/consul/ConsulConfigStore.java:76 | with no prefix, an empty key lands under the empty key at the root |

## Left out

- Creating the Consul client from `ConsulClientOptions` (line 41) and `close()` (lines 64-67): these are calls into the networked client and have no logic of their own.
- The `getValues(prefix, …)` request (line 48): `Get` takes the client's reply to that request as a parameter.
- Vert.x asynchrony (`Handler`, `AsyncResult`, `Future`): replaced by the tagged `ClientReply` and `GetOutcome` values.
- Serialising the tree to JSON text in a `Buffer` (line 53): `Get` delivers the tree value, and `{}` is the empty object.
- The regular-expression reading of the delimiter in `String.split` (line 76): `Split` treats the delimiter literally, which agrees only when it has no regex metacharacters (the default `/` has none).
- Key insertion order within each object (`JsonObject` keeps a `LinkedHashMap`): objects are modelled as maps.
- Java strings are UTF-16 code-unit sequences; the model uses Dafny `char` sequences with no encoding.
- `NewStore` treats the delimiter option only as present or missing; a key present with a `null` value is not distinguished.
- TreeBuilder.RemoveMarkers: its contract states which entries are kept, not that their order is kept; `MarkersIgnored` relies on its definition for that.
- Flattening a document back into keys and rebuilding it: the store has no such operation.
