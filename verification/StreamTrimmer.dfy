/** Publishing to streams and trimming them: the length tables resolved from the configuration, the tick loop, and what
    every interleaving of publishes and trims keeps. */
module StreamTrimmer {
  import opened MessageRegistry
  import opened Options

  datatype Message = Message(id: string, payload: string)

  type Streams = map<string, seq<Message>>

  // ----- Length tables -----

  /** The cap the trimmer uses for a short name: the configured one if positive, else the default; none unless
      positive. */
  function CapOf(shortName: string, configured: map<string, int>, default: int): Option<int> {
    var cap := if shortName in configured && configured[shortName] > 0 then configured[shortName] else default;
    if cap > 0 then Some(cap) else None
  }

  /** The trimmer's table: every topic with a positive cap. */
  ghost predicate IsLimits(
    limits: map<string, int>, shortToTopic: map<string, string>, configured: map<string, int>, default: int)
  {
    && (forall s :: s in shortToTopic ==>
          match CapOf(s, configured, default)
          case Some(cap) => shortToTopic[s] in limits && limits[shortToTopic[s]] == cap
          case None => shortToTopic[s] !in limits)
    && (forall t :: t in limits ==> t in shortToTopic.Values && limits[t] > 0)
  }

  /** Short names lead to different topics. */
  ghost predicate Injective(m: map<string, string>) {
    forall s, u :: s in m && u in m && m[s] == m[u] ==> s == u
  }

  lemma RegistryTablesAreInjective(shortToTopic: map<string, string>, types: Types)
    requires IsShortToTopic(shortToTopic, types)
    ensures Injective(shortToTopic)
  {
  }

  method ResolveLimits(shortToTopic: map<string, string>, configured: map<string, int>, default: int)
    returns (limits: map<string, int>)
    requires Injective(shortToTopic)
    ensures IsLimits(limits, shortToTopic, configured, default)
  {
    limits := map[];
    var todo := shortToTopic.Keys;
    while todo != {}
      invariant todo <= shortToTopic.Keys
      invariant forall s :: s in shortToTopic.Keys - todo ==>
        match CapOf(s, configured, default)
        case Some(cap) => shortToTopic[s] in limits && limits[shortToTopic[s]] == cap
        case None => shortToTopic[s] !in limits
      invariant forall t :: t in limits ==>
        limits[t] > 0 && exists s :: s in shortToTopic.Keys - todo && shortToTopic[s] == t
    {
      var s :| s in todo;
      var maxLen := default;
      if s in configured && configured[s] > 0 {
        maxLen := configured[s];
      }
      if maxLen > 0 {
        limits := limits[shortToTopic[s] := maxLen];
      }
      todo := todo - {s};
    }
  }

  /** The publisher's table: the configured numbers as they are, for the short names the registry knows. */
  ghost predicate IsMaxLens(
    maxLens: map<string, int>, shortToTopic: map<string, string>, configured: map<string, int>)
  {
    && (forall s :: s in configured && s in shortToTopic ==>
          shortToTopic[s] in maxLens && maxLens[shortToTopic[s]] == configured[s])
    && (forall t :: t in maxLens ==> exists s :: s in configured && s in shortToTopic && shortToTopic[s] == t)
  }

  method PublisherMaxLens(shortToTopic: map<string, string>, configured: map<string, int>)
    returns (maxLens: map<string, int>)
    requires Injective(shortToTopic)
    ensures IsMaxLens(maxLens, shortToTopic, configured)
  {
    maxLens := map[];
    var todo := configured.Keys;
    while todo != {}
      invariant todo <= configured.Keys
      invariant forall s :: s in configured.Keys - todo && s in shortToTopic ==>
        shortToTopic[s] in maxLens && maxLens[shortToTopic[s]] == configured[s]
      invariant forall t :: t in maxLens ==>
        exists s :: s in configured.Keys - todo && s in shortToTopic && shortToTopic[s] == t
    {
      var s :| s in todo;
      if s in shortToTopic {
        maxLens := maxLens[shortToTopic[s] := configured[s]];
      }
      todo := todo - {s};
    }
  }

  /** The length the publisher asks the store to keep on append: the table's, else the default; no bound unless
      positive. */
  function PublisherCap(topic: string, maxLens: map<string, int>, default: int): Option<nat> {
    var cap := if topic in maxLens then maxLens[topic] else default;
    if cap > 0 then Some(cap) else None
  }

  /** The cap the trimmer cuts a topic to. */
  function TrimmerCap(topic: string, limits: map<string, int>): Option<nat> {
    if topic in limits && limits[topic] > 0 then Some(limits[topic]) else None
  }

  // ----- The two tables of one registry -----

  /** What the trimmer may end up with: each of the two asks the registry for its short names on its own, and where a
      short name is shared each gets one of its topics. */
  ghost predicate IsTrimmerTable(
    limits: map<string, int>, types: Types, configured: map<string, int>, default: int)
  {
    exists a :: IsShortToTopic(a, types) && IsLimits(limits, a, configured, default)
  }

  /** What the publisher may end up with. */
  ghost predicate IsPublisherTable(maxLens: map<string, int>, types: Types, configured: map<string, int>) {
    exists b :: IsShortToTopic(b, types) && IsMaxLens(maxLens, b, configured)
  }

  method TrimmerLimits(registry: Registry, configured: map<string, int>, default: int)
    returns (limits: map<string, int>)
    requires Keyed(registry.types)
    ensures IsTrimmerTable(limits, registry.types, configured, default)
  {
    var shortToTopic := registry.GetShortToTopicMap();
    RegistryTablesAreInjective(shortToTopic, registry.types);
    limits := ResolveLimits(shortToTopic, configured, default);
  }

  /** No other topic has the short name of this one. */
  ghost predicate Alone(types: Types, topic: string)
    requires topic in types
  {
    forall u :: u in types && types[u].shortName == types[topic].shortName ==> u == topic
  }

  /** Whatever tables the two end up with, they have the same cap for the topic. */
  ghost predicate CapsAgree(types: Types, configured: map<string, int>, default: int, topic: string) {
    forall limits, maxLens ::
      IsTrimmerTable(limits, types, configured, default) && IsPublisherTable(maxLens, types, configured) ==>
        PublisherCap(topic, maxLens, default) == TrimmerCap(topic, limits)
  }

  /** The trimmer's cap, by the table of short names it was given. */
  lemma TrimmerCapBy(
    types: Types, a: map<string, string>, limits: map<string, int>, configured: map<string, int>, default: int,
    topic: string)
    requires Keyed(types) && topic in types
    requires IsShortToTopic(a, types) && IsLimits(limits, a, configured, default)
    ensures
      var name := types[topic].shortName;
      TrimmerCap(topic, limits) == if a[name] == topic then CapOf(name, configured, default) else None
  {
    var name := types[topic].shortName;
    if topic in limits {
      var s :| s in a && a[s] == topic;
      assert s == name;
    }
  }

  /** The publisher's cap, by the table of short names it was given. */
  lemma PublisherCapBy(
    types: Types, b: map<string, string>, maxLens: map<string, int>, configured: map<string, int>, default: int,
    topic: string)
    requires Keyed(types) && topic in types
    requires IsShortToTopic(b, types) && IsMaxLens(maxLens, b, configured)
    ensures
      var name := types[topic].shortName;
      var cap := if b[name] == topic && name in configured then configured[name] else default;
      PublisherCap(topic, maxLens, default) == if cap > 0 then Some(cap) else None
  {
    var name := types[topic].shortName;
    if topic in maxLens {
      var s :| s in configured && s in b && b[s] == topic;
      assert s == name;
    }
  }

  /** A table of short names that sends one of them to this topic. */
  lemma TableThrough(types: Types, topic: string) returns (a: map<string, string>)
    requires Keyed(types) && topic in types
    ensures IsShortToTopic(a, types) && a[types[topic].shortName] == topic
  {
    a := map[];
    var todo := types.Keys;
    while todo != {}
      invariant todo <= types.Keys
      invariant forall t :: t in types.Keys - todo ==> types[t].shortName in a
      invariant forall s :: s in a ==> a[s] in types && types[a[s]].shortName == s
    {
      var t :| t in todo;
      a, todo := a[types[t].shortName := t], todo - {t};
    }
    a := a[types[topic].shortName := topic];
  }

  /** The trimmer's table by a table of short names. */
  lemma LimitsBy(a: map<string, string>, configured: map<string, int>, default: int) returns (limits: map<string, int>)
    requires Injective(a)
    ensures IsLimits(limits, a, configured, default)
  {
    limits := map s | s in a && CapOf(s, configured, default).Some? :: a[s] := CapOf(s, configured, default).value;
  }

  /** The publisher's table by a table of short names. */
  lemma MaxLensBy(b: map<string, string>, configured: map<string, int>) returns (maxLens: map<string, int>)
    requires Injective(b)
    ensures IsMaxLens(maxLens, b, configured)
  {
    maxLens := map s | s in configured && s in b :: b[s] := configured[s];
  }

  /** What the trimmer's cap is, in numbers, for a topic that shares its short name with no other: the configured number
      if positive, else the default if that is positive, else none. */
  lemma TrimmerCapExactly(
    types: Types, limits: map<string, int>, configured: map<string, int>, default: int, topic: string)
    requires Keyed(types) && topic in types && Alone(types, topic)
    requires IsTrimmerTable(limits, types, configured, default)
    ensures
      var name, cap := types[topic].shortName, TrimmerCap(topic, limits);
      && (name in configured && configured[name] > 0 ==> cap == Some(configured[name]))
      && (!(name in configured && configured[name] > 0) && default > 0 ==> cap == Some(default))
      && (!(name in configured && configured[name] > 0) && default <= 0 ==> cap == None)
  {
    var a :| IsShortToTopic(a, types) && IsLimits(limits, a, configured, default);
    TrimmerCapBy(types, a, limits, configured, default, topic);
  }

  /** Two tables whose caps for a topic are those of two registry tables that send its short name to these topics. */
  lemma TablesThrough(types: Types, configured: map<string, int>, default: int, t: string, u: string, v: string)
    returns (limits: map<string, int>, maxLens: map<string, int>)
    requires Keyed(types) && t in types && u in types && v in types
    requires types[u].shortName == types[v].shortName == types[t].shortName
    ensures IsTrimmerTable(limits, types, configured, default) && IsPublisherTable(maxLens, types, configured)
    ensures
      var name := types[t].shortName;
      var cap := if v == t && name in configured then configured[name] else default;
      && TrimmerCap(t, limits) == (if u == t then CapOf(name, configured, default) else None)
      && PublisherCap(t, maxLens, default) == if cap > 0 then Some(cap) else None
  {
    var a := TableThrough(types, u);
    var b := TableThrough(types, v);
    RegistryTablesAreInjective(a, types);
    RegistryTablesAreInjective(b, types);
    limits := LimitsBy(a, configured, default);
    maxLens := MaxLensBy(b, configured);
    TrimmerCapBy(types, a, limits, configured, default, t);
    PublisherCapBy(types, b, maxLens, configured, default, t);
  }

  lemma CapsAgreeIf(types: Types, configured: map<string, int>, default: int, topic: string)
    requires Keyed(types) && topic in types
    requires
      var name := types[topic].shortName;
      || CapOf(name, configured, default).None?
      || (Alone(types, topic) && !(name in configured && configured[name] <= 0))
    ensures CapsAgree(types, configured, default, topic)
  {
    forall limits, maxLens
      | IsTrimmerTable(limits, types, configured, default) && IsPublisherTable(maxLens, types, configured)
      ensures PublisherCap(topic, maxLens, default) == TrimmerCap(topic, limits)
    {
      var a :| IsShortToTopic(a, types) && IsLimits(limits, a, configured, default);
      var b :| IsShortToTopic(b, types) && IsMaxLens(maxLens, b, configured);
      TrimmerCapBy(types, a, limits, configured, default, topic);
      PublisherCapBy(types, b, maxLens, configured, default, topic);
    }
  }

  lemma CapsDisagreeElse(types: Types, configured: map<string, int>, default: int, topic: string)
    requires Keyed(types) && topic in types
    requires
      var name := types[topic].shortName;
      && CapOf(name, configured, default).Some?
      && !(Alone(types, topic) && !(name in configured && configured[name] <= 0))
    ensures !CapsAgree(types, configured, default, topic)
  {
    var name := types[topic].shortName;
    var limits, maxLens;
    if Alone(types, topic) {
      limits, maxLens := TablesThrough(types, configured, default, topic, topic, topic);
    } else {
      var other :| other in types && types[other].shortName == name && other != topic;
      var unbounded := name in configured && configured[name] <= 0;
      limits, maxLens := TablesThrough(types, configured, default, topic, other, if unbounded then other else topic);
    }
    assert PublisherCap(topic, maxLens, default) != TrimmerCap(topic, limits);
  }

  /** Trimmer and publisher are sure to have the same cap for a registered topic if and only if the trimmer has none for
      its short name, or no other topic has that short name and its configured number, if there is one, is positive. A
      shared short name may lead the two to different topics; and where a number is not positive the trimmer falls back
      to the default, while the publisher copies the number and so sets no bound. */
  lemma TablesAgreeExactly(types: Types, configured: map<string, int>, default: int, topic: string)
    requires Keyed(types) && topic in types
    ensures
      var name := types[topic].shortName;
      CapsAgree(types, configured, default, topic) <==>
        || CapOf(name, configured, default).None?
        || (Alone(types, topic) && !(name in configured && configured[name] <= 0))
  {
    var name := types[topic].shortName;
    if CapOf(name, configured, default).None?
       || (Alone(types, topic) && !(name in configured && configured[name] <= 0)) {
      CapsAgreeIf(types, configured, default, topic);
    } else {
      CapsDisagreeElse(types, configured, default, topic);
    }
  }

  // ----- Streams -----

  function StreamOf(streams: Streams, topic: string): seq<Message> {
    if topic in streams then streams[topic] else []
  }

  /** The newest n messages; all of them if there are fewer. */
  function Newest(stream: seq<Message>, n: nat): seq<Message> {
    if |stream| <= n then stream else stream[|stream| - n..]
  }

  /** What one tick leaves: topics with a cap cut down to their newest messages, except those whose trim failed. */
  ghost predicate IsTrimmed(before: Streams, after: Streams, limits: map<string, int>, failing: set<string>) {
    forall t :: StreamOf(after, t) == (
      if t in limits && t !in failing && limits[t] > 0 then Newest(StreamOf(before, t), limits[t])
      else StreamOf(before, t))
  }

  /** A stream after an append under a cap at which the store chose to drop so many of the oldest messages: it never
      goes below the cap. */
  function Appended(stream: seq<Message>, message: Message, cap: Option<nat>, dropped: nat): seq<Message> {
    var all := stream + [message];
    if cap.None? then all else Newest(all, Max(cap.value, |all| - dropped))
  }

  function Max(n: nat, m: int): nat {
    if m > n then m else n
  }

  class Broker {
    var streams: Streams

    constructor ()
      ensures streams == map[]
    {
      streams := map[];
    }

    /** Appends a message. Under a cap the store may drop old messages, as many as it likes, but keeps that many. */
    method XAdd(topic: string, message: Message, cap: Option<nat>, dropped: nat)
      modifies this
      ensures streams == old(streams)[topic := Appended(StreamOf(old(streams), topic), message, cap, dropped)]
    {
      streams := streams[topic := Appended(StreamOf(streams, topic), message, cap, dropped)];
    }

    /** Cuts a stream to its newest messages, and returns how many it removed; a trim that fails has no effect. */
    method XTrimMaxLen(topic: string, maxLen: nat, fails: bool) returns (r: Option<nat>)
      modifies this
      ensures fails ==> r.None? && streams == old(streams)
      ensures !fails ==>
        && r == Some(|StreamOf(old(streams), topic)| - |Newest(StreamOf(old(streams), topic), maxLen)|)
        && StreamOf(streams, topic) == Newest(StreamOf(old(streams), topic), maxLen)
        && forall t :: t != topic ==> StreamOf(streams, t) == StreamOf(old(streams), t)
    {
      if fails {
        return None;
      }
      var stream := StreamOf(streams, topic);
      if |stream| <= maxLen {
        return Some(0);
      }
      streams := streams[topic := stream[|stream| - maxLen..]];
      r := Some(|stream| - maxLen);
    }

    /** One tick, over the topics in any order; a failing trim is skipped. The result does not depend on the order. */
    method TrimTick(limits: map<string, int>, failing: set<string>)
      requires forall t :: t in limits ==> limits[t] > 0
      modifies this
      ensures IsTrimmed(old(streams), streams, limits, failing)
    {
      var todo := limits.Keys;
      while todo != {}
        invariant todo <= limits.Keys
        invariant forall t :: StreamOf(streams, t) == (
                    if t in limits.Keys - todo && t !in failing then Newest(StreamOf(old(streams), t), limits[t])
                    else StreamOf(old(streams), t))
      {
        var topic :| topic in todo;
        var _ := XTrimMaxLen(topic, limits[topic], topic in failing);
        todo := todo - {topic};
      }
    }
  }

  class Publisher {
    const broker: Broker
    const maxLens: map<string, int>
    const defaultMaxLen: int

    constructor (broker: Broker, registry: Registry, configured: map<string, int>, defaultMaxLen: int)
      requires Keyed(registry.types)
      ensures this.broker == broker && this.defaultMaxLen == defaultMaxLen
      ensures IsPublisherTable(maxLens, registry.types, configured)
    {
      var shortToTopic := registry.GetShortToTopicMap();
      RegistryTablesAreInjective(shortToTopic, registry.types);
      this.broker := broker;
      this.defaultMaxLen := defaultMaxLen;
      var table := PublisherMaxLens(shortToTopic, configured);
      maxLens := table;
    }

    /** The payload is None when it cannot be marshalled. The request id, if there is one, becomes the message id. */
    method Publish(topic: string, payload: Option<string>, requestId: Option<string>, freshId: string, dropped: nat,
                   fault: WriteFault)
      returns (ok: bool)
      modifies broker
      ensures ok <==> payload.Some? && fault.Works?
      ensures payload.None? || fault.Refused? ==> broker.streams == old(broker.streams)
      ensures payload.Some? && !fault.Refused? ==>
        var id := if requestId.Some? && requestId.value != "" then requestId.value else freshId;
        broker.streams == Apply(old(broker.streams), Published(topic, Message(id, payload.value), dropped),
                                Caps(map[], maxLens, defaultMaxLen))
    {
      if payload.None? {
        return false;
      }
      var msgID := freshId;
      if requestId.Some? && requestId.value != "" {
        msgID := requestId.value;
      }
      if fault.Refused? {
        return false;
      }
      broker.XAdd(topic, Message(msgID, payload.value), PublisherCap(topic, maxLens, defaultMaxLen), dropped);
      ok := fault.Works?;
    }
  }

  // ----- Every interleaving of publishes and trims -----

  /** Both tables, and the default the publisher falls back to. */
  datatype Caps = Caps(limits: map<string, int>, maxLens: map<string, int>, default: int)

  datatype Event = Published(topic: string, message: Message, dropped: nat) | Trimmed(topic: string, fails: bool)

  /** What a publish or a trim does to the streams; the trimmer only visits topics with a cap. */
  function Apply(streams: Streams, e: Event, caps: Caps): Streams {
    match e
    case Published(topic, m, dropped) =>
      streams[topic := Appended(StreamOf(streams, topic), m, PublisherCap(topic, caps.maxLens, caps.default), dropped)]
    case Trimmed(topic, fails) =>
      var cap := TrimmerCap(topic, caps.limits);
      if cap.Some? && !fails then streams[topic := Newest(StreamOf(streams, topic), cap.value)] else streams
  }

  function Run(events: seq<Event>, caps: Caps): Streams {
    if events == [] then map[] else Apply(Run(events[..|events| - 1], caps), events[|events| - 1], caps)
  }

  /** Everything published to a topic, oldest first. */
  function PublishedTo(events: seq<Event>, topic: string): seq<Message> {
    if events == [] then [] else
      var e := events[|events| - 1];
      PublishedTo(events[..|events| - 1], topic) + if e.Published? && e.topic == topic then [e.message] else []
  }

  /** How many messages a topic has received since its last successful trim, if it had one. */
  function SinceTrim(events: seq<Event>, topic: string): Option<nat> {
    if events == [] then None else
      var e := events[|events| - 1];
      var before := SinceTrim(events[..|events| - 1], topic);
      if e.topic != topic then before
      else if e.Trimmed? then if e.fails then before else Some(0)
      else if before.Some? then Some(before.value + 1)
      else None
  }

  predicate IsSuffix(a: seq<Message>, b: seq<Message>) {
    |a| <= |b| && a == b[|b| - |a|..]
  }

  function Least(a: Option<nat>, b: Option<nat>): Option<nat> {
    if a.None? then b else if b.None? || a.value <= b.value then a else b
  }

  /** How many of the newest messages are sure to be kept: the least of the caps that have come to bear; None for all.
      */
  function Floor(caps: Caps, topic: string, trimmed: bool): Option<nat> {
    Least(PublisherCap(topic, caps.maxLens, caps.default), if trimmed then TrimmerCap(topic, caps.limits) else None)
  }

  /** The stream ends in the newest messages published, down to that floor. */
  predicate KeepsNewest(stream: seq<Message>, published: seq<Message>, floor: Option<nat>) {
    match floor
    case None => stream == published
    case Some(n) => Newest(stream, n) == Newest(published, n)
  }

  /** What is sure of a topic's stream: it is the end of what was published; it holds the newest messages down to the
      floor; and once trimmed it holds no more than the cap and what has come since. */
  predicate Retained(stream: seq<Message>, published: seq<Message>, since: Option<nat>, caps: Caps, topic: string) {
    && IsSuffix(stream, published)
    && KeepsNewest(stream, published, Floor(caps, topic, since.Some?))
    && (since.Some? && TrimmerCap(topic, caps.limits).Some? ==>
          |stream| <= TrimmerCap(topic, caps.limits).value + since.value)
  }

  /** Newest messages and suffixes: a suffix keeps the newest n exactly if it holds that many, or everything. */
  lemma SuffixKeeps(stream: seq<Message>, published: seq<Message>, n: nat)
    requires IsSuffix(stream, published)
    ensures Newest(stream, n) == Newest(published, n) <==> |stream| >= n || stream == published
  {
    if Newest(stream, n) == Newest(published, n) && |stream| < n {
      assert Newest(published, n) == stream;
    }
  }

  lemma SuffixOfNewest(stream: seq<Message>, published: seq<Message>, n: nat)
    requires IsSuffix(stream, published)
    ensures IsSuffix(Newest(stream, n), published)
  {
  }

  lemma AppendedEnds(stream: seq<Message>, published: seq<Message>, m: Message, cap: Option<nat>, dropped: nat)
    requires IsSuffix(stream, published)
    ensures IsSuffix(Appended(stream, m, cap, dropped), published + [m])
    ensures |Appended(stream, m, cap, dropped)| <= |stream| + 1
    ensures |Appended(stream, m, cap, dropped)| == |stream| + 1
      || (cap.Some? && cap.value <= |Appended(stream, m, cap, dropped)|)
    ensures cap.Some? && cap.value + dropped <= |stream| + 1 ==>
      |Appended(stream, m, cap, dropped)| == |stream| + 1 - dropped
  {
    assert IsSuffix(stream + [m], published + [m]);
    if cap.Some? {
      SuffixOfNewest(stream + [m], published + [m], Max(cap.value, |stream + [m]| - dropped));
    }
  }

  /** One more message: whatever number of newest ones was there, below the publisher's cap, is there. */
  lemma AppendKeeps(
    stream: seq<Message>, published: seq<Message>, m: Message, cap: Option<nat>, dropped: nat, floor: Option<nat>)
    requires IsSuffix(stream, published) && KeepsNewest(stream, published, floor)
    requires cap.Some? ==> floor.Some? && floor.value <= cap.value
    ensures KeepsNewest(Appended(stream, m, cap, dropped), published + [m], floor)
  {
    AppendedEnds(stream, published, m, cap, dropped);
    match floor
    case None =>
    case Some(n) =>
      SuffixKeeps(stream, published, n);
      SuffixKeeps(Appended(stream, m, cap, dropped), published + [m], n);
  }

  lemma PublishRetains(
    stream: seq<Message>, published: seq<Message>, since: Option<nat>, caps: Caps, topic: string, m: Message,
    dropped: nat)
    requires Retained(stream, published, since, caps, topic)
    ensures
      var cap := PublisherCap(topic, caps.maxLens, caps.default);
      var since' := if since.Some? then Some(since.value + 1) else None;
      Retained(Appended(stream, m, cap, dropped), published + [m], since', caps, topic)
  {
    var cap := PublisherCap(topic, caps.maxLens, caps.default);
    AppendedEnds(stream, published, m, cap, dropped);
    AppendKeeps(stream, published, m, cap, dropped, Floor(caps, topic, since.Some?));
  }

  lemma TrimRetains(
    stream: seq<Message>, published: seq<Message>, since: Option<nat>, caps: Caps, topic: string)
    requires Retained(stream, published, since, caps, topic) && TrimmerCap(topic, caps.limits).Some?
    ensures Retained(Newest(stream, TrimmerCap(topic, caps.limits).value), published, Some(0), caps, topic)
  {
    var stream' := Newest(stream, TrimmerCap(topic, caps.limits).value);
    SuffixOfNewest(stream, published, TrimmerCap(topic, caps.limits).value);
    var n := Floor(caps, topic, true).value;
    SuffixKeeps(stream', published, n);
    match Floor(caps, topic, since.Some?)
    case None =>
    case Some(m) => SuffixKeeps(stream, published, m);
  }

  /** Stream retention. In every interleaving of publishes and trims, failed ones included, and whatever the store drops
      on append, a topic's stream is the end of what was published to it; it holds the newest messages down to the
      least cap that has come to bear, and all of them if none has; and once trimmed it holds no more than the trimmer's
      cap and whatever came since. */
  lemma {:induction false} StreamsRetain(events: seq<Event>, caps: Caps, topic: string)
    ensures Retained(StreamOf(Run(events, caps), topic), PublishedTo(events, topic), SinceTrim(events, topic), caps,
                     topic)
  {
    if events == [] {
    } else {
      var before, e := events[..|events| - 1], events[|events| - 1];
      var since, published := SinceTrim(before, topic), PublishedTo(before, topic);
      StreamsRetain(before, caps, topic);
      assert published + [] == published;
      if e.topic == topic {
        match e
        case Published(_, m, dropped) =>
          PublishRetains(StreamOf(Run(before, caps), topic), published, since, caps, topic, m, dropped);
        case Trimmed(_, fails) =>
          if !fails && TrimmerCap(topic, caps.limits).Some? {
            TrimRetains(StreamOf(Run(before, caps), topic), published, since, caps, topic);
          }
      }
    }
  }

  /** The caps of a topic that shares its short name with no other: the publisher's is the trimmer's, or none. */
  lemma CapsAlone(types: Types, configured: map<string, int>, caps: Caps, topic: string)
    requires Keyed(types) && topic in types && Alone(types, topic)
    requires IsTrimmerTable(caps.limits, types, configured, caps.default)
    requires IsPublisherTable(caps.maxLens, types, configured)
    ensures
      var cap := CapOf(types[topic].shortName, configured, caps.default);
      && TrimmerCap(topic, caps.limits) == cap
      && PublisherCap(topic, caps.maxLens, caps.default) in {cap, None}
  {
    var a :| IsShortToTopic(a, types) && IsLimits(caps.limits, a, configured, caps.default);
    var b :| IsShortToTopic(b, types) && IsMaxLens(caps.maxLens, b, configured);
    TrimmerCapBy(types, a, caps.limits, configured, caps.default, topic);
    PublisherCapBy(types, b, caps.maxLens, configured, caps.default, topic);
  }

  /** For a registered topic that shares its short name with no other, and has a positive cap, the cap's worth of newest
      messages is always there, and after a trim nothing beyond the cap but what came since; also where the publisher
      was given a number that sets no bound. */
  lemma CapIsKept(events: seq<Event>, types: Types, configured: map<string, int>, caps: Caps, topic: string)
    requires Keyed(types) && topic in types && Alone(types, topic)
    requires CapOf(types[topic].shortName, configured, caps.default).Some?
    requires IsTrimmerTable(caps.limits, types, configured, caps.default)
    requires IsPublisherTable(caps.maxLens, types, configured)
    ensures
      var cap := CapOf(types[topic].shortName, configured, caps.default).value;
      var stream, published := StreamOf(Run(events, caps), topic), PublishedTo(events, topic);
      && IsSuffix(stream, published) && Newest(stream, cap) == Newest(published, cap)
      && (SinceTrim(events, topic).Some? ==> |stream| <= cap + SinceTrim(events, topic).value)
  {
    CapsAlone(types, configured, caps, topic);
    StreamsRetain(events, caps, topic);
  }

  // ----- When nothing is dropped on append -----

  lemma NewestOfNewest(stream: seq<Message>, n: nat, m: nat)
    requires m <= n
    ensures Newest(Newest(stream, n), m) == Newest(stream, m)
  {
  }

  lemma NewestAppend(stream: seq<Message>, n: nat, m: Message)
    ensures Newest(stream, n) + [m] == Newest(stream + [m], n + 1)
  {
  }

  /** The part of what was published that a topic's stream then holds. */
  function Kept(published: seq<Message>, since: Option<nat>, cap: Option<nat>): seq<Message> {
    if cap.Some? && since.Some? then Newest(published, cap.value + since.value) else published
  }

  /** The store does not use its leave to drop messages of the topic on append. */
  ghost predicate DropsNothing(events: seq<Event>, topic: string) {
    forall i :: 0 <= i < |events| && events[i].Published? && events[i].topic == topic ==> events[i].dropped == 0
  }

  lemma NothingDropped(stream: seq<Message>, message: Message, cap: Option<nat>)
    ensures Appended(stream, message, cap, 0) == stream + [message]
  {
  }

  /** What is kept, with one more message. */
  lemma PublishKeeps(published: seq<Message>, since: Option<nat>, cap: Option<nat>, m: Message)
    ensures
      var since' := if since.Some? then Some(since.value + 1) else None;
      Kept(published, since, cap) + [m] == Kept(published + [m], since', cap)
  {
    if cap.Some? && since.Some? {
      NewestAppend(published, cap.value + since.value, m);
    }
  }

  /** What is kept, once trimmed. */
  lemma TrimKeeps(published: seq<Message>, since: Option<nat>, cap: nat)
    ensures Newest(Kept(published, since, Some(cap)), cap) == Kept(published, Some(0), Some(cap))
  {
    if since.Some? {
      NewestOfNewest(published, cap + since.value, cap);
    }
  }

  /** Then a stream is exactly the newest part of what was published to it: all of it while the topic has no cap or has
      not been trimmed, and afterwards its cap and whatever came since the last successful trim. */
  lemma {:induction false} StreamsRetainExactly(events: seq<Event>, caps: Caps, topic: string)
    requires DropsNothing(events, topic)
    ensures StreamOf(Run(events, caps), topic)
      == Kept(PublishedTo(events, topic), SinceTrim(events, topic), TrimmerCap(topic, caps.limits))
  {
    if events == [] {
    } else {
      var before, e := events[..|events| - 1], events[|events| - 1];
      var since, published, cap := SinceTrim(before, topic), PublishedTo(before, topic), TrimmerCap(topic, caps.limits);
      StreamsRetainExactly(before, caps, topic);
      assert published + [] == published;
      if e.topic == topic {
        match e
        case Published(_, m, _) =>
          NothingDropped(StreamOf(Run(before, caps), topic), m, PublisherCap(topic, caps.maxLens, caps.default));
          PublishKeeps(published, since, cap, m);
        case Trimmed(_, fails) =>
          if cap.Some? { TrimKeeps(published, since, cap.value); }
      }
    }
  }

  // ----- One tick, trim by trim -----

  /** The trims of a tick that takes its topics in this order. */
  function TrimAll(streams: Streams, order: seq<string>, caps: Caps, failing: set<string>): Streams
    decreases |order|
  {
    if order == [] then streams else
      TrimAll(Apply(streams, Trimmed(order[0], order[0] in failing), caps), order[1..], caps, failing)
  }

  lemma OneTrim(streams: Streams, topic: string, fails: bool, caps: Caps, t: string)
    ensures
      var cap := TrimmerCap(t, caps.limits);
      StreamOf(Apply(streams, Trimmed(topic, fails), caps), t)
        == if t == topic && !fails && cap.Some? then Newest(StreamOf(streams, t), cap.value) else StreamOf(streams, t)
  {
  }

  lemma {:induction false} TrimsReach(streams: Streams, order: seq<string>, caps: Caps, failing: set<string>, t: string)
    ensures
      var cap := TrimmerCap(t, caps.limits);
      StreamOf(TrimAll(streams, order, caps, failing), t)
        == if t in order && t !in failing && cap.Some? then Newest(StreamOf(streams, t), cap.value)
           else StreamOf(streams, t)
    decreases |order|
  {
    if order == [] {
    } else {
      var next := Apply(streams, Trimmed(order[0], order[0] in failing), caps);
      OneTrim(streams, order[0], order[0] in failing, caps, t);
      TrimsReach(next, order[1..], caps, failing, t);
    }
  }

  /** In whatever order a tick takes its topics, its trims do the same: each topic with a cap is cut to its newest
      messages, and one that fails does not keep the others from being trimmed. */
  lemma TickInAnyOrder(streams: Streams, order: seq<string>, caps: Caps, failing: set<string>)
    requires forall t :: t in caps.limits <==> t in order
    ensures IsTrimmed(streams, TrimAll(streams, order, caps, failing), caps.limits, failing)
  {
    forall t
      ensures StreamOf(TrimAll(streams, order, caps, failing), t) == (
        if t in caps.limits && t !in failing && caps.limits[t] > 0 then Newest(StreamOf(streams, t), caps.limits[t])
        else StreamOf(streams, t))
    {
      TrimsReach(streams, order, caps, failing, t);
    }
  }
}
