/** The envelope of a delivery, the bus message it travels in, and the codec between them. */
module Envelope {
  import opened Wrappers
  import opened Decimal

  type Bytes = seq<bv8>

  // RFC 3339 text of an instant, kept abstract: an instant is a number.
  datatype Clock = Clock(format: int -> string, parse: string -> Option<int>)

  predicate Readable(c: Clock, t: int) {
    c.format(t) != "" && c.parse(c.format(t)) == Some(t)
  }

  datatype Envelope = Envelope(
    schemaVersion: Int64,
    deliveryGUID: string,
    event: string,
    action: string,
    hookID: string,
    receivedAt: int,
    repositoryID: Int64,
    repository: string,
    forwardedBy: string,
    forwardHops: Int64,
    payload: Bytes)

  datatype Message = Message(uuid: string, metadata: map<Key, string>, payload: Bytes)

  datatype Result<T> = Ok(value: T) | MissingMetadata(key: Key) | InvalidMetadata(key: Key)

  const SCHEMA_VERSION: Int64 := 1

  // A metadata key: one of the names the envelope uses, or any other.
  datatype Key =
    | DELIVERY_GUID | SCHEMA | EVENT | ACTION | HOOK_ID | RECEIVED_AT
    | REPOSITORY_ID | REPOSITORY | FORWARDED_BY | FORWARD_HOPS
    | Other(name: string)

  function KeyText(k: Key): string {
    match k
    case DELIVERY_GUID => "delivery_guid"
    case SCHEMA => "schema_version"
    case EVENT => "event"
    case ACTION => "action"
    case HOOK_ID => "hook_id"
    case RECEIVED_AT => "received_at"
    case REPOSITORY_ID => "repository_id"
    case REPOSITORY => "repository"
    case FORWARDED_BY => "antwatcher.forward.by"
    case FORWARD_HOPS => "antwatcher.forward.hops"
    case Other(name) => name
  }

  // No two of the envelope's keys share their text, so keys may stand for texts.
  lemma KeysDiffer(k: Key, l: Key)
    requires !k.Other? && !l.Other?
    ensures KeyText(k) == KeyText(l) <==> k == l
  {
    assert KeyText(DELIVERY_GUID)[0] != KeyText(REPOSITORY_ID)[0];
    assert KeyText(k) == KeyText(l) ==> |KeyText(k)| == |KeyText(l)| && KeyText(k)[0] == KeyText(l)[0];
  }

  // The text env gives a key, None when the key is left out: optional fields are left out when empty.
  function Entry(c: Clock, env: Envelope, k: Key): Option<string> {
    match k
    case DELIVERY_GUID => Some(env.deliveryGUID)
    case SCHEMA => Some(Format(env.schemaVersion))
    case EVENT => Some(env.event)
    case RECEIVED_AT => Some(c.format(env.receivedAt))
    case ACTION => NonEmpty(env.action)
    case HOOK_ID => NonEmpty(env.hookID)
    case REPOSITORY_ID => if env.repositoryID == 0 then None else Some(Format(env.repositoryID))
    case REPOSITORY => NonEmpty(env.repository)
    case FORWARDED_BY => NonEmpty(env.forwardedBy)
    case FORWARD_HOPS => if env.forwardHops <= 0 then None else Some(Format(env.forwardHops))
    case Other(_) => None
  }

  function NonEmpty(text: string): Option<string> {
    if text == "" then None else Some(text)
  }

  predicate Holds(m: map<Key, string>, k: Key, text: Option<string>) {
    if text.None? then k !in m else k in m && m[k] == text.value
  }

  // m is the metadata of env.
  ghost predicate Encodes(c: Clock, env: Envelope, m: map<Key, string>) {
    forall k :: Holds(m, k, Entry(c, env, k))
  }

  // The order in which the keys are set.
  function Rank(k: Key): nat {
    match k
    case DELIVERY_GUID => 0
    case SCHEMA => 1
    case EVENT => 2
    case RECEIVED_AT => 3
    case ACTION => 4
    case HOOK_ID => 5
    case REPOSITORY_ID => 6
    case REPOSITORY => 7
    case FORWARDED_BY => 8
    case FORWARD_HOPS => 9
    case Other(_) => 10
  }

  // m holds what env gives the first n keys, and no other key.
  ghost predicate Filled(c: Clock, env: Envelope, m: map<Key, string>, n: nat) {
    forall k :: Holds(m, k, if Rank(k) < n then Entry(c, env, k) else None)
  }

  // One entry, set only when it is present.
  method Set(c: Clock, env: Envelope, m: map<Key, string>, k: Key, present: bool, text: string)
    returns (n: map<Key, string>)
    requires !k.Other? && Filled(c, env, m, Rank(k))
    requires Entry(c, env, k) == if present then Some(text) else None
    ensures Filled(c, env, n, Rank(k) + 1)
  {
    n := m;
    if present {
      n := n[k := text];
    }
    forall l ensures Holds(n, l, if Rank(l) <= Rank(k) then Entry(c, env, l) else None) {
      assert Holds(m, l, if Rank(l) < Rank(k) then Entry(c, env, l) else None);
    }
  }

  // The entries every envelope has.
  method SetRequired(c: Clock, env: Envelope) returns (m: map<Key, string>)
    ensures Filled(c, env, m, Rank(ACTION))
  {
    m := Set(c, env, map[], DELIVERY_GUID, true, env.deliveryGUID);
    m := Set(c, env, m, SCHEMA, true, Format(env.schemaVersion));
    m := Set(c, env, m, EVENT, true, env.event);
    m := Set(c, env, m, RECEIVED_AT, true, c.format(env.receivedAt));
  }

  // The entries left out when empty.
  method SetOptional(c: Clock, env: Envelope, required: map<Key, string>) returns (m: map<Key, string>)
    requires Filled(c, env, required, Rank(ACTION))
    ensures Encodes(c, env, m)
  {
    m := Set(c, env, required, ACTION, env.action != "", env.action);
    m := Set(c, env, m, HOOK_ID, env.hookID != "", env.hookID);
    m := Set(c, env, m, REPOSITORY_ID, env.repositoryID != 0, Format(env.repositoryID));
    m := Set(c, env, m, REPOSITORY, env.repository != "", env.repository);
    m := Set(c, env, m, FORWARDED_BY, env.forwardedBy != "", env.forwardedBy);
    m := Set(c, env, m, FORWARD_HOPS, env.forwardHops > 0, Format(env.forwardHops));
    AllFilled(c, env, m);
  }

  lemma AllFilled(c: Clock, env: Envelope, m: map<Key, string>)
    requires Filled(c, env, m, Rank(FORWARD_HOPS) + 1)
    ensures Encodes(c, env, m)
  {
    forall k ensures Holds(m, k, Entry(c, env, k)) {
      assert Holds(m, k, if Rank(k) <= Rank(FORWARD_HOPS) then Entry(c, env, k) else None);
    }
  }

  // The message carries the envelope in its metadata, under the delivery GUID as its UUID.
  method ToMessage(c: Clock, env: Envelope) returns (msg: Message)
    ensures msg.uuid == env.deliveryGUID && msg.payload == env.payload
    ensures Encodes(c, env, msg.metadata)
  {
    var m := SetRequired(c, env);
    m := SetOptional(c, env, m);
    msg := Message(env.deliveryGUID, m, env.payload);
  }

  predicate Has(m: map<Key, string>, k: Key, text: string) {
    k in m && m[k] == text
  }

  // The metadata of an envelope: the required entries are always there, the optional ones when they are not
  // empty, and there is no other.
  lemma EntriesOf(c: Clock, env: Envelope, m: map<Key, string>)
    requires Encodes(c, env, m)
    ensures Has(m, DELIVERY_GUID, env.deliveryGUID) && Has(m, EVENT, env.event)
    ensures Has(m, SCHEMA, Format(env.schemaVersion))
    ensures Has(m, RECEIVED_AT, c.format(env.receivedAt))
    ensures if env.action == "" then ACTION !in m else Has(m, ACTION, env.action)
    ensures if env.hookID == "" then HOOK_ID !in m else Has(m, HOOK_ID, env.hookID)
    ensures if env.repositoryID == 0 then REPOSITORY_ID !in m else Has(m, REPOSITORY_ID, Format(env.repositoryID))
    ensures if env.repository == "" then REPOSITORY !in m else Has(m, REPOSITORY, env.repository)
    ensures if env.forwardedBy == "" then FORWARDED_BY !in m else Has(m, FORWARDED_BY, env.forwardedBy)
    ensures if env.forwardHops <= 0 then FORWARD_HOPS !in m else Has(m, FORWARD_HOPS, Format(env.forwardHops))
    ensures forall k :: k in m ==> !k.Other?
  {
    hide Format;
    forall k | k in m
      ensures !k.Other?
    {
      assert Holds(m, k, Entry(c, env, k));
    }
    assert Holds(m, DELIVERY_GUID, Entry(c, env, DELIVERY_GUID));
    assert Holds(m, SCHEMA, Entry(c, env, SCHEMA));
    assert Holds(m, EVENT, Entry(c, env, EVENT));
    assert Holds(m, RECEIVED_AT, Entry(c, env, RECEIVED_AT));
    assert Holds(m, ACTION, Entry(c, env, ACTION));
    assert Holds(m, HOOK_ID, Entry(c, env, HOOK_ID));
    assert Holds(m, REPOSITORY_ID, Entry(c, env, REPOSITORY_ID));
    assert Holds(m, REPOSITORY, Entry(c, env, REPOSITORY));
    assert Holds(m, FORWARDED_BY, Entry(c, env, FORWARDED_BY));
    assert Holds(m, FORWARD_HOPS, Entry(c, env, FORWARD_HOPS));
  }

  function Lookup(m: map<Key, string>, key: Key): string {
    if key in m then m[key] else ""
  }

  function Shown(text: Option<string>): string {
    if text.None? then "" else text.value
  }

  // A counter is absent, empty, or a non-negative integer; None is any other text.
  function Counter(text: string): Option<Int64> {
    if text == "" then Some(0)
    else
      var n := Parse(text);
      if n.Some? && n.value >= 0 then n else None
  }

  // The metadata texts an envelope is rebuilt from, "" where the key is absent.
  datatype Texts = Texts(
    guid: string, schema: string, event: string, action: string, hookID: string, receivedAt: string,
    repositoryID: string, repository: string, forwardedBy: string, forwardHops: string)

  function TextsOf(msg: Message): Texts {
    var m := msg.metadata;
    Texts(
      if DELIVERY_GUID in m then m[DELIVERY_GUID] else msg.uuid,
      Lookup(m, SCHEMA), Lookup(m, EVENT), Lookup(m, ACTION), Lookup(m, HOOK_ID), Lookup(m, RECEIVED_AT),
      Lookup(m, REPOSITORY_ID), Lookup(m, REPOSITORY), Lookup(m, FORWARDED_BY), Lookup(m, FORWARD_HOPS))
  }

  // The first violated requirement is the error.
  function Decode(c: Clock, t: Texts, payload: Bytes): Result<Envelope> {
    var version := Parse(t.schema);
    var received := c.parse(t.receivedAt);
    var repositoryID := Counter(t.repositoryID);
    var hops := Counter(t.forwardHops);
    if t.guid == "" then MissingMetadata(DELIVERY_GUID)
    else if t.schema == "" then MissingMetadata(SCHEMA)
    else if version.None? || version.value != SCHEMA_VERSION then InvalidMetadata(SCHEMA)
    else if t.event == "" then MissingMetadata(EVENT)
    else if t.receivedAt == "" then MissingMetadata(RECEIVED_AT)
    else if received.None? then InvalidMetadata(RECEIVED_AT)
    else if repositoryID.None? then InvalidMetadata(REPOSITORY_ID)
    else if hops.None? then InvalidMetadata(FORWARD_HOPS)
    else Ok(Envelope(
      version.value, t.guid, t.event, t.action, t.hookID, received.value,
      repositoryID.value, t.repository, t.forwardedBy, hops.value, payload))
  }

  // Rebuild the envelope. A nil message is None.
  function FromMessage(c: Clock, msg: Option<Message>): Result<Envelope> {
    if msg.None? then MissingMetadata(Other("message")) else Decode(c, TextsOf(msg.value), msg.value.payload)
  }

  predicate WellFormed(env: Envelope) {
    && env.schemaVersion == SCHEMA_VERSION
    && env.deliveryGUID != "" && env.event != ""
    && env.repositoryID >= 0 && env.forwardHops >= 0
  }

  // The texts ToMessage leaves behind for env.
  function Written(c: Clock, env: Envelope): Texts {
    Texts(
      env.deliveryGUID, Format(env.schemaVersion), env.event, env.action, env.hookID, c.format(env.receivedAt),
      if env.repositoryID == 0 then "" else Format(env.repositoryID), env.repository, env.forwardedBy,
      if env.forwardHops <= 0 then "" else Format(env.forwardHops))
  }

  lemma TextsAreWritten(c: Clock, env: Envelope, msg: Message)
    requires Encodes(c, env, msg.metadata)
    ensures TextsOf(msg) == Written(c, env)
  {
    assert Holds(msg.metadata, DELIVERY_GUID, Entry(c, env, DELIVERY_GUID));
    forall k ensures Lookup(msg.metadata, k) == Shown(Entry(c, env, k)) {
      assert Holds(msg.metadata, k, Entry(c, env, k));
    }
  }

  // The version parses back; an id and a hop count do exactly when they are not negative.
  lemma NumbersParseBack(c: Clock, env: Envelope)
    ensures Parse(Written(c, env).schema) == Some(env.schemaVersion) && Written(c, env).schema != ""
    ensures Counter(Written(c, env).repositoryID) == (if env.repositoryID >= 0 then Some(env.repositoryID) else None)
    ensures Counter(Written(c, env).forwardHops) == Some(if env.forwardHops >= 0 then env.forwardHops else 0)
  {
    ParseFormat(env.schemaVersion);
    ParseFormat(env.repositoryID);
    ParseFormat(env.forwardHops);
  }

  lemma DecodeUndoesWritten(c: Clock, env: Envelope)
    ensures Decode(c, Written(c, env), env.payload) == Ok(env) <==> WellFormed(env) && Readable(c, env.receivedAt)
  {
    hide Parse, Format, Counter;
    NumbersParseBack(c, env);
  }

  // Decoding undoes encoding for exactly the well-formed envelopes with a readable
  // time, whatever transport UUID the copy travels under.
  lemma RoundTrip(c: Clock, env: Envelope, msg: Message)
    requires Encodes(c, env, msg.metadata) && msg.payload == env.payload
    ensures FromMessage(c, Some(msg)) == Ok(env) <==> WellFormed(env) && Readable(c, env.receivedAt)
  {
    TextsAreWritten(c, env, msg);
    DecodeUndoesWritten(c, env);
  }

  // Whatever decodes is well-formed, and only the payload, the metadata and, in its absence, the UUID matter.
  lemma DecodedIsWellFormed(c: Clock, msg: Message)
    requires FromMessage(c, Some(msg)).Ok?
    ensures WellFormed(FromMessage(c, Some(msg)).value)
    ensures FromMessage(c, Some(msg)).value.payload == msg.payload
    ensures DELIVERY_GUID in msg.metadata ==>
              forall u :: FromMessage(c, Some(msg.(uuid := u))) == FromMessage(c, Some(msg))
  {
  }

  // A refused message lacks the entry it is refused for, or has one that does not read as what it should be.
  lemma RefusedFor(c: Clock, msg: Message, k: Key)
    ensures FromMessage(c, Some(msg)) == MissingMetadata(k) ==>
              && k in {DELIVERY_GUID, SCHEMA, EVENT, RECEIVED_AT}
              && (k in msg.metadata ==> msg.metadata[k] == "")
              && (k == DELIVERY_GUID && k !in msg.metadata ==> msg.uuid == "")
    ensures FromMessage(c, Some(msg)) == InvalidMetadata(k) ==>
              && k in msg.metadata && msg.metadata[k] != ""
              && match k
                 case SCHEMA => Parse(msg.metadata[k]) != Some(1)
                 case RECEIVED_AT => c.parse(msg.metadata[k]).None?
                 case REPOSITORY_ID => Parse(msg.metadata[k]).None? || Parse(msg.metadata[k]).value < 0
                 case FORWARD_HOPS => Parse(msg.metadata[k]).None? || Parse(msg.metadata[k]).value < 0
                 case _ => false
  {
    hide Parse;
  }

  // A decoded envelope survives being encoded and decoded again.
  method Reencode(c: Clock, msg: Message) returns (again: Message)
    requires FromMessage(c, Some(msg)).Ok?
    requires Readable(c, FromMessage(c, Some(msg)).value.receivedAt)
    ensures FromMessage(c, Some(again)) == FromMessage(c, Some(msg))
  {
    var env := FromMessage(c, Some(msg)).value;
    again := ToMessage(c, env);
    RoundTrip(c, env, again);
  }

  // Two well-formed envelopes never share a message.
  lemma EncodingIsInjective(c: Clock, a: Envelope, b: Envelope, msg: Message)
    requires WellFormed(a) && WellFormed(b) && Readable(c, a.receivedAt) && Readable(c, b.receivedAt)
    requires Encodes(c, a, msg.metadata) && Encodes(c, b, msg.metadata)
    requires a.payload == b.payload == msg.payload
    ensures a == b
  {
    RoundTrip(c, a, msg);
    RoundTrip(c, b, msg);
  }

  // And one envelope has one metadata map.
  lemma EncodingIsUnique(c: Clock, env: Envelope, m: map<Key, string>, n: map<Key, string>)
    requires Encodes(c, env, m) && Encodes(c, env, n)
    ensures m == n
  {
    forall k ensures (k in m <==> k in n) && (k in m ==> m[k] == n[k]) {
      assert Holds(m, k, Entry(c, env, k)) && Holds(n, k, Entry(c, env, k));
    }
  }
}

/** Forward sinks re-publish a delivery; the hop count in the copy bounds every chain of copies. */
module Forward {
  import opened Wrappers
  import opened Envelope
  import Identity

  const DEFAULT_MAX_HOPS: Int64 := 3

  datatype Sink = Sink(name: string, topic: string, maxHops: Int64)

  // New panics on an empty topic or a negative limit; 0 asks for the default.
  predicate Accepted(topic: string, maxHops: Int64) {
    topic != "" && maxHops >= 0
  }

  function New(name: string, topic: string, maxHops: Int64): (s: Sink)
    requires Accepted(topic, maxHops)
    ensures s.name == name && s.topic == topic && s.maxHops > 0
    ensures maxHops > 0 ==> s.maxHops == maxHops
    ensures maxHops == 0 ==> s.maxHops == 3
  {
    Sink(name, topic, if maxHops == 0 then DEFAULT_MAX_HOPS else maxHops)
  }

  // Integer increment as the machine does it.
  function Next(n: Int64): Int64 {
    if n == MAX_INT64 then MIN_INT64 else n + 1
  }

  // The envelope inside the copy.
  function Copy(s: Sink, env: Envelope): Envelope {
    env.(forwardedBy := s.name, forwardHops := Next(env.forwardHops))
  }

  // The text hashed into the transport UUID of a copy.
  function UUIDText(guid: string, name: string, topic: string): string {
    "antwatcher:forward:" + guid + ":" + name + ":" + topic
  }

  method CopyMessage(hash: string -> string, c: Clock, s: Sink, env: Envelope) returns (msg: Message)
    ensures msg.uuid == hash(UUIDText(env.deliveryGUID, s.name, s.topic))
    ensures Encodes(c, Copy(s, env), msg.metadata) && msg.payload == env.payload
  {
    msg := ToMessage(c, Copy(s, env));
    msg := msg.(uuid := hash(UUIDText(env.deliveryGUID, s.name, s.topic)));
  }

  // Process publishes a copy or refuses a loop; refused is its permanent error.
  method Process(hash: string -> string, c: Clock, s: Sink, env: Envelope) returns (refused: bool, msg: Option<Message>)
    ensures refused == (env.forwardHops >= s.maxHops)
    ensures refused <==> msg.None?
    ensures !refused ==> IsCopy(c, s, env, msg.value)
    ensures !refused ==> msg.value.uuid == hash(UUIDText(env.deliveryGUID, s.name, s.topic))
    ensures !refused && WellFormed(env) && Readable(c, env.receivedAt) ==>
              FromMessage(c, msg) == Ok(env.(forwardedBy := s.name, forwardHops := env.forwardHops + 1))
  {
    if env.forwardHops >= s.maxHops {
      return true, None;
    }
    var copy := CopyMessage(hash, c, s, env);
    refused, msg := false, Some(copy);
    RoundTrip(c, Copy(s, env), copy);
  }

  // msg is a copy of env that s may publish.
  ghost predicate IsCopy(c: Clock, s: Sink, env: Envelope, msg: Message) {
    env.forwardHops < s.maxHops && Encodes(c, Copy(s, env), msg.metadata) && msg.payload == env.payload
  }

  // Some sink of the graph turned the delivery a into the delivery b.
  ghost predicate Hop(c: Clock, s: Sink, a: Envelope, msg: Message, b: Envelope) {
    IsCopy(c, s, a, msg) && FromMessage(c, Some(msg)) == Ok(b)
  }

  // A chain of copies: copies[i] was built by sinks[i] from envs[i] and read back as envs[i + 1].
  ghost predicate Chain(c: Clock, sinks: seq<Sink>, envs: seq<Envelope>, copies: seq<Message>) {
    && |envs| == |sinks| + 1 && |copies| == |sinks|
    && forall i :: 0 <= i < |sinks| ==> Hop(c, sinks[i], envs[i], copies[i], envs[i + 1])
  }

  predicate SameDelivery(a: Envelope, b: Envelope) {
    a == b.(forwardedBy := a.forwardedBy, forwardHops := a.forwardHops)
  }

  // One hop keeps the delivery and counts itself.
  lemma HopCounts(c: Clock, s: Sink, a: Envelope, msg: Message, b: Envelope)
    requires Hop(c, s, a, msg, b)
    requires Readable(c, a.receivedAt) && WellFormed(a)
    ensures b == a.(forwardedBy := s.name, forwardHops := a.forwardHops + 1)
    ensures WellFormed(b) && b.forwardHops <= s.maxHops
  {
    RoundTrip(c, Copy(s, a), msg);
  }

  // Along a chain the delivery keeps every field but the two forward markers, which name the last sink
  // and count the hops; when no limit exceeds limit, hops already made and the chain together stay within it.
  lemma {:induction false} ChainIsBounded(c: Clock, sinks: seq<Sink>, envs: seq<Envelope>, copies: seq<Message>,
                                          limit: int)
    requires Chain(c, sinks, envs, copies)
    requires WellFormed(envs[0]) && Readable(c, envs[0].receivedAt)
    requires forall s :: s in sinks ==> s.maxHops <= limit
    ensures forall e :: e in envs ==> SameDelivery(e, envs[0])
    ensures envs[|sinks|].forwardHops == envs[0].forwardHops + |sinks|
    ensures sinks != [] ==> envs[|sinks|].forwardedBy == sinks[|sinks| - 1].name
    ensures sinks != [] ==> envs[0].forwardHops + |sinks| <= sinks[|sinks| - 1].maxHops <= limit
    decreases |sinks|
  {
    if sinks != [] {
      var n := |sinks| - 1;
      ChainIsBounded(c, sinks[..n], envs[..n + 1], copies[..n], limit);
      assert SameDelivery(envs[..n + 1][n], envs[0]);
      LastIsWellFormed(c, sinks[..n], envs[..n + 1], copies[..n]);
      HopCounts(c, sinks[n], envs[n], copies[n], envs[n + 1]);
      assert envs == envs[..n + 1] + [envs[n + 1]];
    }
  }

  lemma {:induction false} LastIsWellFormed(c: Clock, sinks: seq<Sink>, envs: seq<Envelope>, copies: seq<Message>)
    requires Chain(c, sinks, envs, copies) && WellFormed(envs[0])
    ensures WellFormed(envs[|sinks|])
  {
    if sinks != [] {
      var n := |sinks| - 1;
      assert Hop(c, sinks[n], envs[n], copies[n], envs[n + 1]);
      DecodedIsWellFormed(c, copies[n]);
    }
  }

  // A well-formed delivery moves on through s exactly while it is below the limit of s.
  method TryHop(hash: string -> string, c: Clock, s: Sink, env: Envelope)
    returns (moved: bool, msg: Option<Message>, next: Envelope)
    requires WellFormed(env) && Readable(c, env.receivedAt)
    ensures moved <==> env.forwardHops < s.maxHops
    ensures moved ==> msg.Some? && Hop(c, s, env, msg.value, next)
    ensures !moved ==> forall m, e :: !Hop(c, s, env, m, e)
  {
    var refused;
    refused, msg := Process(hash, c, s, env);
    moved, next := !refused, env;
    if moved {
      next := env.(forwardedBy := s.name, forwardHops := env.forwardHops + 1);
    }
  }

  // ----- transport UUIDs -----

  lemma SplitAtColon(a: string, x: string, b: string, y: string)
    requires ':' !in a && ':' !in b && a + ":" + x == b + ":" + y
    ensures a == b && x == y
  {
    Identity.HeadOf(a, x);
    Identity.HeadOf(b, y);
    assert (a + ":" + x)[|a| + 1..] == x && (b + ":" + y)[|a| + 1..] == y;
  }

  // Copies of one delivery by differently named sinks, or to different topics, hash different texts.
  // Sink names never hold a colon.
  lemma TextTellsTarget(guid: string, name: string, topic: string, other: string, target: string)
    requires ':' !in name && ':' !in other
    ensures UUIDText(guid, name, topic) == UUIDText(guid, other, target) <==> name == other && topic == target
  {
    var p := "antwatcher:forward:" + guid + ":";
    assert UUIDText(guid, name, topic)[|p|..] == name + ":" + topic;
    assert UUIDText(guid, other, target)[|p|..] == other + ":" + target;
    if UUIDText(guid, name, topic) == UUIDText(guid, other, target) {
      SplitAtColon(name, topic, other, target);
    }
  }

  // Across deliveries the text tells the GUID as well when no GUID holds a colon.
  lemma TextTellsDelivery(guid: string, name: string, topic: string, g: string, n: string, t: string)
    requires ':' !in guid && ':' !in g && ':' !in name && ':' !in n
    ensures UUIDText(guid, name, topic) == UUIDText(g, n, t) <==> guid == g && name == n && topic == t
  {
    var p := "antwatcher:forward:";
    assert UUIDText(guid, name, topic)[|p|..] == guid + ":" + (name + ":" + topic);
    assert UUIDText(g, n, t)[|p|..] == g + ":" + (n + ":" + t);
    if UUIDText(guid, name, topic) == UUIDText(g, n, t) {
      SplitAtColon(guid, name + ":" + topic, g, n + ":" + t);
      SplitAtColon(name, topic, n, t);
    }
  }

  // What the longer GUID adds to the shorter one, with the name and topic behind it.
  function Beyond(short: string, long: string, name: string, topic: string): string
    requires |short| < |long|
  {
    long[|short| + 1..] + ":" + (name + ":" + topic)
  }

  lemma BeyondSplits(short: string, long: string, name: string, topic: string, n: string, t: string)
    requires |short| < |long| && ':' !in n
    ensures n + ":" + t == Beyond(short, long, name, topic) <==>
              n == Identity.Head(long[|short| + 1..]) && t == Beyond(short, long, name, topic)[|n| + 1..]
  {
    var r := Beyond(short, long, name, topic);
    Identity.HeadOfMore(long[|short| + 1..], name + ":" + topic);
    Identity.HeadOf(n, t);
    assert r[|long| - |short| - 1] == ':';
    if n + ":" + t == r {
      assert r[|n| + 1..] == t;
    } else if n == Identity.Head(long[|short| + 1..]) {
      assert |n| < |r|;
      assert r == n + ":" + r[|n| + 1..];
    }
  }

  // The texts of any two copies agree exactly when the deliveries, names and topics do, or one GUID continues
  // the other after a colon and the shorter one's sink and topic are what follows it: the sink name up to
  // the next colon, the topic all the rest.
  lemma TextSharedIff(guid: string, name: string, topic: string, g: string, n: string, t: string)
    requires ':' !in name && ':' !in n && |g| <= |guid|
    ensures |g| == |guid| ==>
              (UUIDText(guid, name, topic) == UUIDText(g, n, t) <==> guid == g && name == n && topic == t)
    ensures |g| < |guid| ==>
              (UUIDText(guid, name, topic) == UUIDText(g, n, t) <==>
                 && g + ":" <= guid
                 && n == Identity.Head(guid[|g| + 1..])
                 && t == Beyond(g, guid, name, topic)[|n| + 1..])
  {
    var p := "antwatcher:forward:";
    var a, b := guid + ":" + (name + ":" + topic), g + ":" + (n + ":" + t);
    assert UUIDText(guid, name, topic) == p + a && UUIDText(g, n, t) == p + b;
    assert UUIDText(guid, name, topic)[|p|..] == a && UUIDText(g, n, t)[|p|..] == b;
    assert a[..|g|] == guid[..|g|] && b[..|g|] == g;
    assert b[|g|] == ':' && b[|g| + 1..] == n + ":" + t;
    if |g| == |guid| {
      assert a[|g| + 1..] == name + ":" + topic;
      if a == b {
        SplitAtColon(name, topic, n, t);
      }
    } else {
      assert a[|g| + 1..] == Beyond(g, guid, name, topic);
      BeyondSplits(g, guid, name, topic, n, t);
      TextsMeet(a, b, g, guid);
    }
  }

  lemma TextsMeet(a: string, b: string, g: string, guid: string)
    requires |g| < |guid| <= |a| && a[..|guid|] == guid
    requires |g| < |b| && b[..|g|] == g && b[|g|] == ':'
    ensures a == b <==> g + ":" <= guid && a[|g| + 1..] == b[|g| + 1..]
  {
    assert a[..|g| + 1] == guid[..|g| + 1] && b[..|g| + 1] == g + ":";
    assert a == a[..|g| + 1] + a[|g| + 1..] && b == b[..|g| + 1] + b[|g| + 1..];
  }

  // For instance these two deliveries share a text.
  lemma TextCanCollide()
    ensures UUIDText("a", "b", "b:c") == UUIDText("a:b", "b", "c")
  {
    assert UUIDText("a", "b", "b:c") == "antwatcher:forward:a:b:b:c";
    assert UUIDText("a:b", "b", "c") == "antwatcher:forward:a:b:b:c";
  }
}
