// The schema-revision cache of the Pub/Sub Avro subscriber
// (pubsub-avro/quickstart.cc): each message names a schema and a revision;
// the writer schema of a revision is fetched once and kept.
module AvroCache {
  import opened Wrappers

  /** A Pub/Sub message: its attributes and payload. */
  datatype Message = Message(attributes: map<string, string>, data: string)

  /** `message.attributes()[key]`: the value, or "" when the attribute is absent. */
  function Attribute(m: Message, key: string): string
  {
    if key in m.attributes then m.attributes[key] else ""
  }

  function SchemaName(m: Message): string { Attribute(m, "googclient_schemaname") }
  function RevisionId(m: Message): string { Attribute(m, "googclient_schemarevisionid") }
  function Encoding(m: Message): string { Attribute(m, "googclient_schemaencoding") }

  /** The resource the schema client is asked for. */
  function SchemaPath(m: Message): string
  {
    SchemaName(m) + "@" + RevisionId(m)
  }

  /** A writer schema, represented by its definition text. */
  type Schemas = map<string, string>

  /** What the callback consults beyond its own cache: `getSchema(path)` is
      the GetSchema reply (None when the call fails), `compiles(definition)`
      says whether `avro::compileJsonSchema` accepts a definition, and
      `decodes(writer, data)` whether `avro::decode` accepts a JSON payload
      under a writer schema. Both Avro calls throw when they do not. */
  datatype Env = Env(getSchema: string -> Option<string>, compiles: string -> bool, decodes: (string, string) -> bool)

  /** What handling one message did: the schema path fetched (if any), the
      writer schema it reached (None when the fetch failed or the definition
      did not compile), the writer schema a JSON payload was decoded with,
      whether the message was acked, and whether an exception left the
      callback. */
  datatype Handling = Handling(fetched: Option<string>, writer: Option<string>, decodedWith: Option<string>, acked: bool, threw: bool)

  /** The subscriber callback on the cache `cache`: the new cache and what was done. */
  function Handle(cache: Schemas, m: Message, env: Env): (Schemas, Handling)
  {
    var revision := RevisionId(m);
    if revision !in cache && env.getSchema(SchemaPath(m)).None? then
      (cache, Handling(Some(SchemaPath(m)), None, None, false, false))
    else if revision !in cache && !env.compiles(env.getSchema(SchemaPath(m)).value) then
      (cache, Handling(Some(SchemaPath(m)), None, None, false, true))
    else
      var fetched := if revision in cache then None else Some(SchemaPath(m));
      var cache' := if revision in cache then cache else cache[revision := env.getSchema(SchemaPath(m)).value];
      var writer := cache'[revision];
      if Encoding(m) == "JSON" then
        var decoded := env.decodes(writer, m.data);
        (cache', Handling(fetched, Some(writer), Some(writer), decoded, !decoded))
      else
        (cache', Handling(fetched, Some(writer), None, true, false))
  }

  /** GetSchema is called exactly when the revision is not cached, and with
      `<schema name>@<revision id>`. */
  lemma FetchOnlyOnMiss(cache: Schemas, m: Message, env: Env)
    ensures var h := Handle(cache, m, env).1;
      (h.fetched.Some? <==> RevisionId(m) !in cache)
      && (h.fetched.Some? ==> h.fetched.value == SchemaName(m) + "@" + RevisionId(m))
  {
  }

  /** The writer schema is reached exactly when the revision is cached or its
      definition is fetched and compiles; it is then the cache entry of the
      revision. Otherwise the cache is unchanged, the message is not acked,
      and an exception left the callback iff the fetch succeeded. */
  lemma WriterLookup(cache: Schemas, m: Message, env: Env)
    ensures var (cache', h) := Handle(cache, m, env);
      var definition := env.getSchema(SchemaPath(m));
      (h.writer.Some? <==> RevisionId(m) in cache || (definition.Some? && env.compiles(definition.value)))
      && (h.writer.Some? ==> RevisionId(m) in cache' && h.writer.value == cache'[RevisionId(m)])
      && (h.writer.None? ==> cache' == cache && !h.acked && (h.threw <==> definition.Some?))
  {
  }

  /** A message is acked exactly when its writer schema is reached and, for
      a JSON payload, the payload decodes under it. Every message that is not
      acked left by an exception, except one whose schema fetch failed. */
  lemma AckedIffDecodable(cache: Schemas, m: Message, env: Env)
    ensures var (cache', h) := Handle(cache, m, env);
      (h.acked <==> h.writer.Some? && (Encoding(m) == "JSON" ==> env.decodes(h.writer.value, m.data)))
      && (h.threw <==> !h.acked && !(RevisionId(m) !in cache && env.getSchema(SchemaPath(m)).None?))
  {
  }

  /** Entries are never replaced or dropped; the cache changes only when a
      fetched definition compiles, and then gains exactly that definition
      under the revision id. */
  lemma CacheOnlyGrows(cache: Schemas, m: Message, env: Env)
    ensures var (cache', h) := Handle(cache, m, env);
      (forall r :: r in cache ==> r in cache' && cache'[r] == cache[r])
      && (h.fetched.Some? && h.writer.Some? ==> cache' == cache[RevisionId(m) := env.getSchema(SchemaPath(m)).value])
      && (h.fetched.None? || h.writer.None? ==> cache' == cache)
  {
  }

  /** Only JSON payloads are decoded, with the cached writer schema of the
      message's revision, whether or not the decoding then succeeds. */
  lemma DecodesJsonWithCachedSchema(cache: Schemas, m: Message, env: Env)
    ensures var (cache', h) := Handle(cache, m, env);
      (h.decodedWith.Some? <==> h.writer.Some? && Encoding(m) == "JSON")
      && (h.decodedWith.Some? ==> h.decodedWith.value == cache'[RevisionId(m)])
  {
  }

  /** Once a revision's writer schema is reached, a later message with the
      same revision id is not fetched again, whatever schema name it
      carries: the cache key is the revision alone. That message is acked
      iff it is not JSON or it decodes under the cached schema. */
  lemma NoRefetch(cache: Schemas, m1: Message, m2: Message, env: Env)
    requires RevisionId(m1) == RevisionId(m2)
    requires Handle(cache, m1, env).1.writer.Some?
    ensures var (cache', _) := Handle(cache, m1, env);
      var (_, h2) := Handle(cache', m2, env);
      h2.fetched.None? && h2.writer == Some(cache'[RevisionId(m1)])
      && (h2.acked <==> Encoding(m2) != "JSON" || env.decodes(cache'[RevisionId(m1)], m2.data))
  {
  }

  /** The callback run on each message in turn, from the cache `cache`:
      the final cache and what was done for each message. */
  function HandleAll(cache: Schemas, ms: seq<Message>, env: Env): (r: (Schemas, seq<Handling>))
    ensures |r.1| == |ms|
  {
    if ms == [] then (cache, [])
    else
      var (c, hs) := HandleAll(cache, ms[..|ms| - 1], env);
      var (c', h) := Handle(c, ms[|ms| - 1], env);
      (c', hs + [h])
  }

  /** Message j is handled with the cache left by the messages before it. */
  lemma {:induction false} HandleAllAt(cache: Schemas, ms: seq<Message>, env: Env, j: nat)
    requires j < |ms|
    ensures HandleAll(cache, ms, env).1[j] == Handle(HandleAll(cache, ms[..j], env).0, ms[j], env).1
    decreases |ms|
  {
    var n := |ms|;
    if j < n - 1 {
      HandleAllAt(cache, ms[..n - 1], env, j);
      assert ms[..n - 1][..j] == ms[..j];
    } else {
      assert ms[..n - 1] == ms[..j];
    }
  }

  /** A message whose writer schema was reached leaves its revision in
      every later cache. */
  lemma {:induction false} FoundStaysCached(cache: Schemas, ms: seq<Message>, env: Env, i: nat)
    requires i < |ms| && HandleAll(cache, ms, env).1[i].writer.Some?
    ensures RevisionId(ms[i]) in HandleAll(cache, ms, env).0
    decreases |ms|
  {
    var n := |ms|;
    var (c, hs) := HandleAll(cache, ms[..n - 1], env);
    if i < n - 1 {
      assert ms[..n - 1][i] == ms[i];
      FoundStaysCached(cache, ms[..n - 1], env, i);
    } else {
      WriterLookup(c, ms[n - 1], env);
    }
    CacheOnlyGrows(c, ms[n - 1], env);
  }

  /** A revision whose schema was fetched and compiled is never fetched
      again by a later message. */
  lemma NeverRefetched(cache: Schemas, ms: seq<Message>, env: Env, i: nat, j: nat)
    requires i < j < |ms| && RevisionId(ms[i]) == RevisionId(ms[j])
    requires HandleAll(cache, ms, env).1[i].writer.Some?
    ensures HandleAll(cache, ms, env).1[j].fetched.None?
  {
    HandleAllAt(cache, ms, env, i);
    HandleAllAt(cache, ms[..j], env, i);
    assert ms[..j][..i] == ms[..i];
    assert ms[..j][i] == ms[i];
    FoundStaysCached(cache, ms[..j], env, i);
    HandleAllAt(cache, ms, env, j);
    FetchOnlyOnMiss(HandleAll(cache, ms[..j], env).0, ms[j], env);
  }

  /** The subscriber's cache, `revisions_to_schemas`. */
  class SchemaCache {
    var revisionsToSchemas: Schemas

    constructor()
      ensures revisionsToSchemas == map[]
    {
      revisionsToSchemas := map[];
    }

    /** The subscribe callback for one message. */
    method OnMessage(m: Message, env: Env) returns (h: Handling)
      modifies this
      ensures (revisionsToSchemas, h) == Handle(old(revisionsToSchemas), m, env)
    {
      var schemaName := SchemaName(m);
      var schemaRevisionId := RevisionId(m);
      var fetched := None;
      if schemaRevisionId !in revisionsToSchemas {
        var schemaPath := schemaName + "@" + schemaRevisionId;
        fetched := Some(schemaPath);
        var schema := env.getSchema(schemaPath);
        if schema.None? {
          return Handling(fetched, None, None, false, false);
        }
        if !env.compiles(schema.value) {
          return Handling(fetched, None, None, false, true);
        }
        revisionsToSchemas := revisionsToSchemas[schemaRevisionId := schema.value];
      }
      var writerSchema := revisionsToSchemas[schemaRevisionId];
      var encoding := Encoding(m);
      if encoding == "JSON" {
        if !env.decodes(writerSchema, m.data) {
          return Handling(fetched, Some(writerSchema), Some(writerSchema), false, true);
        }
        return Handling(fetched, Some(writerSchema), Some(writerSchema), true, false);
      }
      return Handling(fetched, Some(writerSchema), None, true, false);
    }
  }
}
