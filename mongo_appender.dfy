/**
 * MongoAppender: a logback appender that writes each log event as a document into a MongoDB
 * collection with a TTL index on "timestamp". Its configuration fields, the client and the
 * collection it opens in `start`, the client it closes in `stop` and the guard in `append` are
 * modelled as a class whose whole state is also available as a value, so that the lifecycle can
 * be specified by pure transition functions. The driver calls (parsing the URI, connecting,
 * creating the index, inserting) are replaced by their outcomes, passed in as parameters.
 */
module MongoAppender {
  import opened Wrappers

  const DefaultCollection: string := "logs"
  const DefaultRetentionDays: int := 30
  const DefaultDatabase: string := "pdfprocessor"
  const SecondsPerDay: int := 86400

  const UriMissing: string := "MongoDB URI is missing"
  const TtlIndexFailed: string := "Failed to create TTL index"
  const StartFailedPrefix: string := "Failed to start MongoAppender: "
  const WriteFailed: string := "Failed to write log to MongoDB"

  /**
   * Kotlin's Char.isWhitespace(): Java's Character.isWhitespace or Character.isSpaceChar, i.e.
   * the ASCII controls TAB to CR and FS to US, and every space, line and paragraph separator.
   */
  predicate IsKotlinWhitespace(c: char) {
    || '\t' <= c <= '\r'
    || '\U{001C}' <= c <= ' '
    || c == '\U{00A0}' || c == '\U{1680}'
    || '\U{2000}' <= c <= '\U{200A}'
    || c == '\U{2028}' || c == '\U{2029}' || c == '\U{202F}' || c == '\U{205F}' || c == '\U{3000}'
  }

  /** String.isBlank() in Kotlin: empty or whitespace only. */
  predicate IsBlank(s: string) {
    forall i :: 0 <= i < |s| ==> IsKotlinWhitespace(s[i])
  }

  /** A client created by MongoClients.create; `closed` once close() was called. */
  datatype MongoClient = MongoClient(uri: string, closed: bool)

  /** The collection handle: database and collection names. */
  datatype CollectionRef = CollectionRef(database: string, name: string)

  /** The TTL index requested in `start`: ascending on `field`, expiring after the given seconds. */
  datatype TtlIndex = TtlIndex(field: string, expireAfterSeconds: int)

  /** What the driver does in `start`, from parsing the URI to creating the index. */
  datatype StartOutcome =
    | FailsBeforeClient(message: Option<string>)   // ConnectionString or MongoClients.create throws
    | FailsAfterClient(message: Option<string>)    // getDatabase or getCollection throws
    | Opens(uriDatabase: Option<string>, indexCreated: bool)

  datatype Level = TRACE | DEBUG | INFO | WARN | ERROR

  /** Level.toString(). */
  function LevelName(l: Level): string {
    match l
    case TRACE => "TRACE"
    case DEBUG => "DEBUG"
    case INFO => "INFO"
    case WARN => "WARN"
    case ERROR => "ERROR"
  }

  datatype ThrowableProxy = ThrowableProxy(className: string, message: Option<string>)

  /** The parts of an ILoggingEvent the appender reads; nullable ones are options. */
  datatype LogEvent = LogEvent(
    timeStamp: int,
    level: Level,
    loggerName: Option<string>,
    threadName: Option<string>,
    formattedMessage: Option<string>,
    throwableProxy: Option<ThrowableProxy>,
    mdcPropertyMap: Option<map<string, string>>)

  /** The BSON values the appender writes. */
  datatype BsonValue =
    | Date(millis: int)
    | Text(text: Option<string>)
    | Context(properties: map<string, string>)

  /** An org.bson.Document: its entries in insertion order. */
  type Document = seq<(string, BsonValue)>

  /** Document.get(key): the value of the first entry with that key. */
  function Get(d: Document, key: string): Option<BsonValue> {
    if d == [] then None else if d[0].0 == key then Some(d[0].1) else Get(d[1..], key)
  }

  /** The value of the first entry whose key matches is what get returns. */
  lemma {:induction false} GetAt(d: Document, key: string, i: nat)
    requires i < |d| && d[i].0 == key
    requires forall j :: 0 <= j < i ==> d[j].0 != key
    ensures Get(d, key) == Some(d[i].1)
  {
    if i > 0 {
      GetAt(d[1..], key, i - 1);
    }
  }

  /** A key no entry carries is absent. */
  lemma {:induction false} GetMissing(d: Document, key: string)
    requires forall j :: 0 <= j < |d| ==> d[j].0 != key
    ensures Get(d, key).None?
  {
    if d != [] {
      GetMissing(d[1..], key);
    }
  }

  function Keys(d: Document): seq<string> {
    seq(|d|, i requires 0 <= i < |d| => d[i].0)
  }

  /** Java string concatenation of a possibly null String: null prints as "null". */
  function NullToText(s: Option<string>): string {
    s.GetOr("null")
  }

  /** The document built in `append`: five fixed entries, then "exception" and "context" when present. */
  function ToDocument(e: LogEvent): Document {
    var base: Document := [
      ("timestamp", Date(e.timeStamp)),
      ("level", Text(Some(LevelName(e.level)))),
      ("logger", Text(e.loggerName)),
      ("thread", Text(e.threadName)),
      ("message", Text(e.formattedMessage))];
    var withException: Document :=
      if e.throwableProxy.Some? then
        base + [("exception", Text(Some(e.throwableProxy.value.className + ": " + NullToText(e.throwableProxy.value.message))))]
      else base;
    if e.mdcPropertyMap.Some? && |e.mdcPropertyMap.value| > 0 then
      withException + [("context", Context(e.mdcPropertyMap.value))]
    else withException
  }

  /**
   * Every document carries timestamp, level, logger, thread and message, in that order; it has
   * an "exception" entry exactly when the event has a throwable, and a "context" entry exactly
   * when the diagnostic map is present and not empty.
   */
  lemma ToDocumentEntries(e: LogEvent)
    ensures var d := ToDocument(e);
            && 5 <= |d| <= 7
            && Keys(d)[..5] == ["timestamp", "level", "logger", "thread", "message"]
            && Get(d, "timestamp") == Some(Date(e.timeStamp))
            && Get(d, "level") == Some(Text(Some(LevelName(e.level))))
            && Get(d, "logger") == Some(Text(e.loggerName))
            && Get(d, "thread") == Some(Text(e.threadName))
            && Get(d, "message") == Some(Text(e.formattedMessage))
  {
    var d := ToDocument(e);
    assert d[0].0 == "timestamp" && d[1].0 == "level" && d[2].0 == "logger" && d[3].0 == "thread" && d[4].0 == "message";
    assert Keys(d)[..5] == ["timestamp", "level", "logger", "thread", "message"];
    GetAt(d, "timestamp", 0);
    GetAt(d, "level", 1);
    GetAt(d, "logger", 2);
    GetAt(d, "thread", 3);
    GetAt(d, "message", 4);
  }

  lemma ToDocumentOptionalEntries(e: LogEvent)
    ensures var d := ToDocument(e);
            && (e.throwableProxy.None? ==> Get(d, "exception").None?)
            && (e.throwableProxy.Some? ==>
                  Get(d, "exception") == Some(Text(Some(e.throwableProxy.value.className + ": " + NullToText(e.throwableProxy.value.message)))))
            && (e.mdcPropertyMap.None? || |e.mdcPropertyMap.value| == 0 ==> Get(d, "context").None?)
            && (e.mdcPropertyMap.Some? && |e.mdcPropertyMap.value| > 0 ==> Get(d, "context") == Some(Context(e.mdcPropertyMap.value)))
  {
    var d := ToDocument(e);
    assert forall j :: 0 <= j < 5 ==> d[j].0 != "exception" && d[j].0 != "context";
    if e.throwableProxy.Some? {
      assert d[5].0 == "exception";
      GetAt(d, "exception", 5);
    } else {
      assert forall j :: 0 <= j < |d| ==> d[j].0 != "exception";
      GetMissing(d, "exception");
    }
    if e.mdcPropertyMap.Some? && |e.mdcPropertyMap.value| > 0 {
      GetAt(d, "context", |d| - 1);
    } else {
      GetMissing(d, "context");
    }
  }

  /** The whole state of an appender as a value. */
  datatype AppenderState = AppenderState(
    uri: string,
    collection: string,
    retentionDays: int,
    enabled: bool,
    mongoClient: Option<MongoClient>,
    logCollection: Option<CollectionRef>,
    ttlIndex: Option<TtlIndex>,
    started: bool,
    errors: seq<string>,
    inserted: seq<Document>)

  /** A newly constructed appender: the field defaults, nothing opened, nothing reported. */
  const Initial: AppenderState :=
    AppenderState("", DefaultCollection, DefaultRetentionDays, true, None, None, None, false, [], [])

  /** What `start` does to the state. */
  function StartSpec(s: AppenderState, outcome: StartOutcome): AppenderState {
    if !s.enabled then s
    else if IsBlank(s.uri) then s.(errors := s.errors + [UriMissing])
    else match outcome
      case FailsBeforeClient(msg) =>
        s.(errors := s.errors + [StartFailedPrefix + NullToText(msg)])
      case FailsAfterClient(msg) =>
        s.(mongoClient := Some(MongoClient(s.uri, false)),
           errors := s.errors + [StartFailedPrefix + NullToText(msg)])
      case Opens(db, indexCreated) =>
        var connected := s.(mongoClient := Some(MongoClient(s.uri, false)),
                         logCollection := Some(CollectionRef(db.GetOr(DefaultDatabase), s.collection)));
        var indexed :=
          if indexCreated then connected.(ttlIndex := Some(TtlIndex("timestamp", s.retentionDays * SecondsPerDay)))
          else connected.(errors := s.errors + [TtlIndexFailed]);
        indexed.(started := true)
  }

  /** What `stop` does: the client, if any, is closed and the appender is no longer started. */
  function StopSpec(s: AppenderState): AppenderState {
    var closed := if s.mongoClient.Some? then Some(s.mongoClient.value.(closed := true)) else None;
    s.(mongoClient := closed, started := false)
  }

  /** What `append` does: nothing without a collection, otherwise one insert or one error. */
  function AppendSpec(s: AppenderState, e: LogEvent, insertSucceeds: bool): AppenderState {
    if s.logCollection.None? then s
    else if insertSucceeds then s.(inserted := s.inserted + [ToDocument(e)])
    else s.(errors := s.errors + [WriteFailed])
  }

  /**
   * The lifecycle invariant: a collection is only held together with the client that opened
   * it, a started appender holds a collection, and an index exists only on an opened collection.
   */
  predicate Consistent(s: AppenderState) {
    && (s.logCollection.Some? ==> s.mongoClient.Some?)
    && (s.started ==> s.logCollection.Some?)
    && (s.ttlIndex.Some? ==> s.logCollection.Some?)
  }

  class Appender {
    var uri: string
    var collection: string
    var retentionDays: int
    var enabled: bool
    var mongoClient: Option<MongoClient>
    var logCollection: Option<CollectionRef>
    var ttlIndex: Option<TtlIndex>
    var started: bool
    var errors: seq<string>
    var inserted: seq<Document>

    function State(): AppenderState
      reads this
    {
      AppenderState(uri, collection, retentionDays, enabled, mongoClient, logCollection, ttlIndex, started, errors, inserted)
    }

    constructor ()
      ensures State() == Initial
    {
      uri := "";
      collection := DefaultCollection;
      retentionDays := DefaultRetentionDays;
      enabled := true;
      mongoClient := None;
      logCollection := None;
      ttlIndex := None;
      started := false;
      errors := [];
      inserted := [];
    }

    /** start(): the disabled and blank-URI exits, the connection, the TTL index, super.start(). */
    method Start(outcome: StartOutcome)
      modifies this
      ensures State() == StartSpec(old(State()), outcome)
    {
      if !enabled {
        return;
      }
      if IsBlank(uri) {
        errors := errors + [UriMissing];
        return;
      }
      match outcome {
        case FailsBeforeClient(msg) =>
          errors := errors + [StartFailedPrefix + NullToText(msg)];
        case FailsAfterClient(msg) =>
          mongoClient := Some(MongoClient(uri, false));
          errors := errors + [StartFailedPrefix + NullToText(msg)];
        case Opens(db, indexCreated) =>
          mongoClient := Some(MongoClient(uri, false));
          var dbName := db.GetOr(DefaultDatabase);
          logCollection := Some(CollectionRef(dbName, collection));
          if indexCreated {
            ttlIndex := Some(TtlIndex("timestamp", retentionDays * SecondsPerDay));
          } else {
            errors := errors + [TtlIndexFailed];
          }
          started := true;
      }
    }

    /** stop(): `mongoClient?.close()`, then super.stop(). */
    method Stop()
      modifies this
      ensures State() == StopSpec(old(State()))
    {
      if mongoClient.Some? {
        mongoClient := Some(mongoClient.value.(closed := true));
      }
      started := false;
    }

    /** append(event): the collection guard, the document, the insert and its caught failure. */
    method Append(e: LogEvent, insertSucceeds: bool)
      modifies this
      ensures State() == AppendSpec(old(State()), e, insertSucceeds)
    {
      if logCollection.None? {
        return;
      }
      var doc := ToDocument(e);
      if insertSucceeds {
        inserted := inserted + [doc];
      } else {
        errors := errors + [WriteFailed];
      }
    }
  }

  /** Every transition keeps the lifecycle invariant, and a new appender satisfies it. */
  lemma TransitionsKeepConsistent(s: AppenderState, outcome: StartOutcome, e: LogEvent, ok: bool)
    requires Consistent(s)
    ensures Consistent(Initial)
    ensures Consistent(StartSpec(s, outcome))
    ensures Consistent(StopSpec(s))
    ensures Consistent(AppendSpec(s, e, ok))
  {
  }

  /** A disabled appender's start changes nothing: no client, no collection, not started. */
  lemma DisabledStartDoesNothing(s: AppenderState, outcome: StartOutcome)
    requires !s.enabled
    ensures StartSpec(s, outcome) == s
  {
  }

  /** A disabled new appender never writes: after start, any appends leave the inserts empty. */
  lemma {:induction false} DisabledAppenderNeverWrites(outcome: StartOutcome, events: seq<LogEvent>, oks: seq<bool>)
    requires |events| == |oks|
    ensures AppendAll(StartSpec(Initial.(enabled := false), outcome), events, oks).inserted == []
    ensures AppendAll(StartSpec(Initial.(enabled := false), outcome), events, oks).errors == []
  {
    var s := StartSpec(Initial.(enabled := false), outcome);
    AppendAllWithoutCollection(s, events, oks);
  }

  /** A sequence of appends, with the outcome of each insert. */
  function AppendAll(s: AppenderState, events: seq<LogEvent>, oks: seq<bool>): AppenderState
    requires |events| == |oks|
    decreases |events|
  {
    if events == [] then s else AppendAll(AppendSpec(s, events[0], oks[0]), events[1..], oks[1..])
  }

  /** Without a collection, appends change nothing. */
  lemma {:induction false} AppendAllWithoutCollection(s: AppenderState, events: seq<LogEvent>, oks: seq<bool>)
    requires |events| == |oks| && s.logCollection.None?
    ensures AppendAll(s, events, oks) == s
    decreases |events|
  {
    if events != [] {
      AppendAllWithoutCollection(AppendSpec(s, events[0], oks[0]), events[1..], oks[1..]);
    }
  }

  /** With a collection, each append adds exactly one document or exactly one error, in order. */
  lemma {:induction false} AppendAllWithCollection(s: AppenderState, events: seq<LogEvent>, oks: seq<bool>)
    requires |events| == |oks| && s.logCollection.Some?
    ensures |AppendAll(s, events, oks).inserted| + |AppendAll(s, events, oks).errors| == |s.inserted| + |s.errors| + |events|
    ensures s.inserted <= AppendAll(s, events, oks).inserted
    ensures AppendAll(s, events, oks).logCollection == s.logCollection
    decreases |events|
  {
    if events != [] {
      var t := AppendSpec(s, events[0], oks[0]);
      AppendAllWithCollection(t, events[1..], oks[1..]);
      assert AppendAll(s, events, oks) == AppendAll(t, events[1..], oks[1..]);
      assert s.inserted <= t.inserted;
    }
  }

  /** A blank URI is reported, and the appender stays unstarted and without a collection. */
  lemma BlankUriIsReported(s: AppenderState, outcome: StartOutcome)
    requires s.enabled && IsBlank(s.uri)
    ensures StartSpec(s, outcome).errors == s.errors + [UriMissing]
    ensures StartSpec(s, outcome).started == s.started
    ensures StartSpec(s, outcome).logCollection == s.logCollection
    ensures StartSpec(s, outcome).mongoClient == s.mongoClient
  {
  }

  /**
   * A successful connection opens the configured collection in the URI's database, or in
   * "pdfprocessor" when the URI names none, and starts the appender even when the TTL index
   * cannot be created; only that failure is reported.
   */
  lemma OpenedAppenderStarts(s: AppenderState, db: Option<string>, indexCreated: bool)
    requires s.enabled && !IsBlank(s.uri)
    ensures var t := StartSpec(s, Opens(db, indexCreated));
            && t.started
            && t.logCollection == Some(CollectionRef(if db.Some? then db.value else DefaultDatabase, s.collection))
            && t.mongoClient == Some(MongoClient(s.uri, false))
            && (indexCreated ==> t.ttlIndex == Some(TtlIndex("timestamp", s.retentionDays * SecondsPerDay)) && t.errors == s.errors)
            && (!indexCreated ==> t.ttlIndex == s.ttlIndex && t.errors == s.errors + [TtlIndexFailed])
  {
  }

  /** A failed connection is reported with its message and does not start the appender. */
  lemma FailedStartIsReported(s: AppenderState, msg: Option<string>, afterClient: bool)
    requires s.enabled && !IsBlank(s.uri)
    ensures var t := StartSpec(s, if afterClient then FailsAfterClient(msg) else FailsBeforeClient(msg));
            && t.started == s.started
            && t.logCollection == s.logCollection
            && t.errors == s.errors + [StartFailedPrefix + (if msg.Some? then msg.value else "null")]
            && (afterClient ==> t.mongoClient == Some(MongoClient(s.uri, false)))
            && (!afterClient ==> t.mongoClient == s.mongoClient)
  {
  }

  /**
   * On a new appender with the default settings, a start that opens the collection requests a
   * TTL index of thirty days on "timestamp" in the "logs" collection.
   */
  lemma DefaultRetentionIsThirtyDays(uri: string, db: Option<string>)
    requires !IsBlank(uri)
    ensures var t := StartSpec(Initial.(uri := uri), Opens(db, true));
            t.ttlIndex == Some(TtlIndex("timestamp", 2592000)) && t.logCollection.Some? && t.logCollection.value.name == "logs"
  {
  }

  /**
   * stop closes the client and clears the started flag but keeps the collection handle, so a
   * later append still tries to insert.
   */
  lemma StopKeepsCollection(s: AppenderState)
    ensures var t := StopSpec(s);
            && !t.started
            && t.logCollection == s.logCollection
            && (s.mongoClient.Some? ==> t.mongoClient.Some? && t.mongoClient.value.closed)
            && t.errors == s.errors && t.inserted == s.inserted
  {
  }
}
