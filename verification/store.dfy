/** `ConsulConfigStore` itself: the prefix normaliser, the configuration the
    constructor derives, and the way `get` turns the Consul client's reply
    into the store's outcome. */
module ConsulStore {
  import opened Results
  import opened Strings
  import opened JsonTree
  import opened TreeBuilder

  /** The `prefix(String, String)` helper: a missing or empty prefix
      becomes the empty string; any other prefix is made to end with the
      delimiter, by appending it when needed. */
  function NormalizePrefix(prefix: Option<string>, d: string): (r: string)
    ensures prefix.None? || prefix == Some("") ==> r == ""
    ensures prefix.Some? && prefix.value != "" ==>
      && EndsWith(r, d)
      && StartsWith(r, prefix.value)
      && (|r| == |prefix.value| || |r| == |prefix.value| + |d|)
    ensures prefix.Some? && EndsWith(prefix.value, d) ==> r == prefix.value
  {
    match prefix
    case None => ""
    case Some(p) =>
      if p == "" then ""
      else if EndsWith(p, d) then p
      else
        assert (p + d)[|p + d| - |d|..] == d;
        p + d
  }

  /** Normalising a normalised prefix changes nothing. */
  lemma NormalizePrefixIdempotent(prefix: Option<string>, d: string)
    ensures NormalizePrefix(Some(NormalizePrefix(prefix, d)), d) == NormalizePrefix(prefix, d)
  {
  }

  /** The store's fixed configuration. */
  datatype Store = Store(delimiter: string, prefix: string)

  /** The constructor: the delimiter defaults to `/` and the prefix is
      normalised with it. The Consul client it also creates is not part of
      this model. */
  function NewStore(delimiter: Option<string>, prefix: Option<string>): (s: Store)
    ensures delimiter.None? ==> s.delimiter == "/"
    ensures delimiter.Some? ==> s.delimiter == delimiter.value
    ensures s.prefix == NormalizePrefix(prefix, s.delimiter)
    ensures s.prefix == "" || EndsWith(s.prefix, s.delimiter)
    ensures prefix.Some? && prefix.value != "" ==> StartsWith(s.prefix, prefix.value)
  {
    var d := match delimiter case Some(x) => x case None => "/";
    Store(d, NormalizePrefix(prefix, d))
  }

  /** Consul's `KeyValueList`: either the prefix does not exist, or the
      entries under it in the order Consul lists them. */
  datatype KeyValueList = Absent | Present(entries: seq<KeyValue>)

  /** The reply the client's `getValues` delivers: a failure cause, or a
      list. */
  datatype ClientReply<C> = ClientFailed(cause: C) | ClientSucceeded(list: KeyValueList)

  /** What a call to `get` comes to: the completion handler receives a
      document or the client's failure cause; or building the tree throws
      inside the client's callback, and the handler is never called. */
  datatype GetOutcome<C> =
    | Completed(doc: Json)
    | Failed(cause: C)
    | Raised(error: TreeError)

  /** `get`, given the client's reply to the request for the store's
      prefix. */
  function Get<C>(store: Store, reply: ClientReply<C>): (o: GetOutcome<C>)
    ensures o.Failed? <==> reply.ClientFailed?
    ensures reply.ClientFailed? ==> o.cause == reply.cause
    ensures reply == ClientSucceeded(Absent) ==> o == Completed(Obj(map[]))
    ensures reply.ClientSucceeded? && reply.list.Present? ==>
      var built := BuildTree(reply.list.entries, |store.prefix|, store.delimiter);
      && (o.Completed? <==> built.Ok?)
      && (built.Ok? ==> o.doc == Obj(built.value))
      && (built.Err? ==> o == Raised(built.error))
  {
    match reply
    case ClientFailed(cause) => Failed(cause)
    case ClientSucceeded(Absent) => Completed(Obj(map[]))
    case ClientSucceeded(Present(entries)) =>
      match BuildTree(entries, |store.prefix|, store.delimiter)
      case Ok(tree) => Completed(Obj(tree))
      case Err(e) => Raised(e)
  }

  /** An absent prefix and a present one holding only directory markers
      (or nothing) produce the same empty document. */
  lemma AbsentLikeMarkersOnly<C>(store: Store, entries: seq<KeyValue>)
    requires forall i :: 0 <= i < |entries| ==> IsMarker(entries[i], store.delimiter)
    ensures Get(store, ClientSucceeded(Present(entries))) == Get<C>(store, ClientSucceeded(Absent))
  {
    OnlyMarkersBuildEmpty(entries, |store.prefix|, store.delimiter);
  }

  /** A delivered document holds the value of the last listed entry at that
      entry's path below the prefix, unless the entry is a directory marker. */
  lemma GetHoldsLastEntry<C>(store: Store, entries: seq<KeyValue>, e: KeyValue)
    requires Get<C>(store, ClientSucceeded(Present(entries + [e]))).Completed?
    requires !IsMarker(e, store.delimiter)
    ensures |store.prefix| <= |e.key| && |store.delimiter| > 0
    ensures Lookup(Get<C>(store, ClientSucceeded(Present(entries + [e]))).doc,
      Segments(e.key, |store.prefix|, store.delimiter)) == Some(Leaf(e.value))
  {
    LookupAfterEntry(entries, e, |store.prefix|, store.delimiter);
  }
}
