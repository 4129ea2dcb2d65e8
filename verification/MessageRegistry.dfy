/** The registry of message types, its lookup tables, and the fan-out of consumers that the router registers. Go's map
    iteration order is arbitrary, and so is the order in which the loops here take their keys. */
module MessageRegistry {
  import opened Options
  import opened Text

  /** A registered type; the handler is its business function's identity. */
  datatype Entry = Entry(shortName: string, topic: string, handler: nat)

  type Types = map<string, Entry>

  /** Each key is its entry's topic. */
  ghost predicate Keyed(types: Types) {
    forall t :: t in types ==> types[t].topic == t
  }

  /** No two topics share a short name. */
  ghost predicate ShortNamesDistinct(types: Types) {
    forall t, u :: t in types && u in types && types[t].shortName == types[u].shortName ==> t == u
  }

  /** The list holds every entry exactly once. */
  ghost predicate Enumerates(entries: seq<Entry>, types: Types) {
    && (forall i :: 0 <= i < |entries| ==> entries[i].topic in types && types[entries[i].topic] == entries[i])
    && (forall i, j :: 0 <= i < j < |entries| ==> entries[i].topic != entries[j].topic)
    && (forall t :: t in types ==> types[t] in entries)
  }

  /** What building the short-to-topic table can leave: for each short name, one of the topics that carry it. */
  ghost predicate IsShortToTopic(m: map<string, string>, types: Types) {
    && (forall t :: t in types ==> types[t].shortName in m)
    && (forall s :: s in m ==> m[s] in types && types[m[s]].shortName == s)
  }

  /** What building the topic-to-short table leaves. */
  ghost predicate IsTopicToShort(m: map<string, string>, types: Types) {
    m.Keys == types.Keys && forall t :: t in types ==> m[t] == types[t].shortName
  }

  class Registry {
    var types: Types

    constructor ()
      ensures types == map[] && Keyed(types)
    {
      types := map[];
    }

    /** A topic registered again is overwritten. */
    method Register(shortName: string, topic: string, handler: nat)
      modifies this
      ensures types == old(types)[topic := Entry(shortName, topic, handler)]
      ensures old(Keyed(types)) ==> Keyed(types)
    {
      types := types[topic := Entry(shortName, topic, handler)];
    }

    method GetAllTopics() returns (topics: seq<string>)
      ensures forall t :: t in topics <==> t in types
      ensures forall i, j :: 0 <= i < j < |topics| ==> topics[i] != topics[j]
    {
      topics := [];
      var todo := types.Keys;
      while todo != {}
        invariant todo <= types.Keys
        invariant forall t :: t in topics <==> t in types.Keys - todo
        invariant forall i, j :: 0 <= i < j < |topics| ==> topics[i] != topics[j]
      {
        var t :| t in todo;
        assert t !in topics;
        topics, todo := topics + [t], todo - {t};
      }
    }

    method GetShortToTopicMap() returns (m: map<string, string>)
      requires Keyed(types)
      ensures IsShortToTopic(m, types)
    {
      m := map[];
      var todo := types.Keys;
      while todo != {}
        invariant todo <= types.Keys
        invariant forall t :: t in types.Keys - todo ==> types[t].shortName in m
        invariant forall s :: s in m ==> m[s] in types && types[m[s]].shortName == s
      {
        var t :| t in todo;
        m, todo := m[types[t].shortName := types[t].topic], todo - {t};
      }
    }

    method GetTopicToShortMap() returns (m: map<string, string>)
      requires Keyed(types)
      ensures IsTopicToShort(m, types)
    {
      m := map[];
      var todo := types.Keys;
      while todo != {}
        invariant todo <= types.Keys
        invariant m.Keys == types.Keys - todo
        invariant forall t :: t in m ==> m[t] == types[t].shortName
      {
        var t :| t in todo;
        m, todo := m[types[t].topic := types[t].shortName], todo - {t};
      }
    }

    method GetHandlers() returns (handlers: seq<Entry>)
      requires Keyed(types)
      ensures Enumerates(handlers, types)
    {
      handlers := [];
      var todo := types.Keys;
      while todo != {}
        invariant todo <= types.Keys
        invariant forall i :: 0 <= i < |handlers| ==>
          handlers[i].topic in types.Keys - todo && types[handlers[i].topic] == handlers[i]
        invariant forall i, j :: 0 <= i < j < |handlers| ==> handlers[i].topic != handlers[j].topic
        invariant forall t :: t in types.Keys - todo ==> types[t] in handlers
      {
        var t :| t in todo;
        handlers, todo := handlers + [types[t]], todo - {t};
      }
    }
  }

  /** The two tables are mutual inverses if and only if the short names are distinct. */
  lemma TablesAreInverse(types: Types, shortToTopic: map<string, string>, topicToShort: map<string, string>)
    requires Keyed(types) && IsShortToTopic(shortToTopic, types) && IsTopicToShort(topicToShort, types)
    ensures forall s :: s in shortToTopic ==> shortToTopic[s] in topicToShort && topicToShort[shortToTopic[s]] == s
    ensures ShortNamesDistinct(types) <==>
      forall t :: t in topicToShort ==> topicToShort[t] in shortToTopic && shortToTopic[topicToShort[t]] == t
  {
    if forall t :: t in topicToShort ==> topicToShort[t] in shortToTopic && shortToTopic[topicToShort[t]] == t {
      forall t, u | t in types && u in types && types[t].shortName == types[u].shortName ensures t == u {
        assert shortToTopic[topicToShort[t]] == t && shortToTopic[topicToShort[u]] == u;
      }
    }
  }

  // ----- Consumers -----

  datatype Consumer = Consumer(name: string, topic: string, handler: nat)

  /** The number of consumers configured for a short name; one unless a positive number is. */
  function Concurrency(config: map<string, int>, shortName: string): (n: nat)
    ensures n >= 1
    ensures shortName in config && config[shortName] > 0 ==> n == config[shortName]
    ensures shortName !in config || config[shortName] <= 0 ==> n == 1
  {
    if shortName in config && config[shortName] > 0 then config[shortName] else 1
  }

  function HandlerName(shortName: string, i: nat): string {
    shortName + "_handler_" + Decimal(i)
  }

  lemma HandlerNameInjective(s: string, i: nat, t: string, j: nat)
    requires HandlerName(s, i) == HandlerName(t, j)
    ensures s == t && i == j
  {
    DecimalRoundTrip(i);
    DecimalRoundTrip(j);
    DigitsLack(Decimal(i), '_');
    DigitsLack(Decimal(j), '_');
    assert HandlerName(s, i) == (s + "_handler") + ['_'] + Decimal(i);
    assert HandlerName(t, j) == (t + "_handler") + ['_'] + Decimal(j);
    CutAtLast(s + "_handler", Decimal(i), t + "_handler", Decimal(j), '_');
    assert s == (s + "_handler")[..|s|] && t == (t + "_handler")[..|t|];
    DecimalInjective(i, j);
  }

  /** The first n consumers of one entry. */
  function Fan(h: Entry, n: nat): (cs: seq<Consumer>)
    ensures |cs| == n
  {
    seq(n, i requires 0 <= i < n => Consumer(HandlerName(h.shortName, i), h.topic, h.handler))
  }

  /** The consumers of a list of entries. */
  function FanOut(handlers: seq<Entry>, config: map<string, int>): seq<Consumer> {
    if handlers == [] then [] else
      FanOut(handlers[..|handlers| - 1], config)
      + Fan(handlers[|handlers| - 1], Concurrency(config, handlers[|handlers| - 1].shortName))
  }

  /** The nested registration loop. Subscribers, numbered by topic, may fail to be created; the first failure ends it.
      */
  method RegisterConsumers(
    handlers: seq<Entry>, topicToShort: map<string, string>, config: map<string, int>, creates: (string, nat) -> bool)
    returns (r: Result<seq<Consumer>, (string, nat)>)
    requires forall i :: 0 <= i < |handlers| ==>
      handlers[i].topic in topicToShort && topicToShort[handlers[i].topic] == handlers[i].shortName
    ensures r.Ok? ==> r.value == FanOut(handlers, config)
    ensures r.Ok? <==>
      forall i, k :: 0 <= i < |handlers| && 0 <= k < Concurrency(config, handlers[i].shortName) ==>
        creates(handlers[i].topic, k)
    // The error names the first consumer that could not be created.
    ensures r.Err? ==> exists i ::
      && 0 <= i < |handlers| && handlers[i].shortName == r.error.0
      && r.error.1 < Concurrency(config, r.error.0) && !creates(handlers[i].topic, r.error.1)
      && (forall k :: 0 <= k < r.error.1 ==> creates(handlers[i].topic, k))
      && (forall j, k :: 0 <= j < i && 0 <= k < Concurrency(config, handlers[j].shortName) ==>
            creates(handlers[j].topic, k))
  {
    var consumers := [];
    for i := 0 to |handlers|
      invariant consumers == FanOut(handlers[..i], config)
      invariant forall j, k :: 0 <= j < i && 0 <= k < Concurrency(config, handlers[j].shortName) ==>
        creates(handlers[j].topic, k)
    {
      var h := handlers[i];
      var n := Concurrency(config, topicToShort[h.topic]);
      for k := 0 to n
        invariant consumers == FanOut(handlers[..i], config) + Fan(h, k)
        invariant forall m :: 0 <= m < k ==> creates(h.topic, m)
      {
        if !creates(h.topic, k) {
          return Err((h.shortName, k));
        }
        consumers := consumers + [Consumer(HandlerName(h.shortName, k), h.topic, h.handler)];
        assert Fan(h, k + 1) == Fan(h, k) + [Consumer(HandlerName(h.shortName, k), h.topic, h.handler)];
      }
      assert handlers[..i + 1][..i] == handlers[..i];
    }
    assert handlers[..|handlers|] == handlers;
    r := Ok(consumers);
  }

  /** The router built from a registry: the fan-out of its entries, taken in some order. */
  method NewRouter(registry: Registry, config: map<string, int>, creates: (string, nat) -> bool)
    returns (r: Result<seq<Consumer>, (string, nat)>)
    requires Keyed(registry.types)
    ensures r.Ok? ==> exists handlers :: Enumerates(handlers, registry.types) && r.value == FanOut(handlers, config)
    ensures r.Ok? <==>
      forall t, k :: t in registry.types && 0 <= k < Concurrency(config, registry.types[t].shortName) ==>
        creates(t, k)
  {
    var topicToShort := registry.GetTopicToShortMap();
    var handlers := registry.GetHandlers();
    r := RegisterConsumers(handlers, topicToShort, config, creates);
    assert forall i :: 0 <= i < |handlers| ==> handlers[i] == registry.types[handlers[i].topic];
    assert forall t :: t in registry.types ==> registry.types[t] in handlers;
  }

  /** Listing the entries in any order neither makes nor breaks the distinctness of short names. */
  lemma EnumerationKeepsNames(handlers: seq<Entry>, types: Types)
    requires Keyed(types) && Enumerates(handlers, types)
    ensures ShortNamesDiffer(handlers) <==> ShortNamesDistinct(types)
  {
    if ShortNamesDiffer(handlers) {
      forall t, u | t in types && u in types && types[t].shortName == types[u].shortName ensures t == u {
        var i :| 0 <= i < |handlers| && handlers[i] == types[t];
        var j :| 0 <= j < |handlers| && handlers[j] == types[u];
        assert i == j;
      }
    }
  }

  /** A consumer is registered exactly if it is one of the numbered consumers of an entry, in whatever order the entries
      come. */
  lemma {:induction false} FanOutMembers(handlers: seq<Entry>, config: map<string, int>, c: Consumer)
    ensures c in FanOut(handlers, config) <==>
      exists h, i: nat :: h in handlers && i < Concurrency(config, h.shortName)
        && c == Consumer(HandlerName(h.shortName, i), h.topic, h.handler)
  {
    if handlers == [] {
    } else {
      var init, last := handlers[..|handlers| - 1], handlers[|handlers| - 1];
      var n := Concurrency(config, last.shortName);
      FanOutMembers(init, config, c);
      assert handlers == init + [last];
      assert forall i: nat :: i < n ==>
        Fan(last, n)[i] == Consumer(HandlerName(last.shortName, i), last.topic, last.handler);
      assert c in Fan(last, n) <==>
        exists i: nat :: i < n && c == Consumer(HandlerName(last.shortName, i), last.topic, last.handler);
    }
  }

  /** The consumers of the i-th entry are registered together, after those of the entries before it, under its short
      name and the numerals from 0. */
  lemma ConsumersAreNumbered(handlers: seq<Entry>, config: map<string, int>, i: nat, k: nat)
    requires i < |handlers| && k < Concurrency(config, handlers[i].shortName)
    ensures
      var first := |FanOut(handlers[..i], config)|;
      && first + k < |FanOut(handlers, config)|
      && FanOut(handlers, config)[first + k]
         == Consumer(handlers[i].shortName + "_handler_" + Decimal(k), handlers[i].topic, handlers[i].handler)
  {
    FanOutPrefix(handlers, config, i + 1);
    assert handlers[..i + 1][..i] == handlers[..i];
  }

  ghost predicate NamesDistinct(consumers: seq<Consumer>) {
    forall i, j :: 0 <= i < j < |consumers| ==> consumers[i].name != consumers[j].name
  }

  ghost predicate ShortNamesDiffer(handlers: seq<Entry>) {
    forall i, j :: 0 <= i < j < |handlers| ==> handlers[i].shortName != handlers[j].shortName
  }

  lemma {:induction false} DifferentNames(handlers: seq<Entry>, config: map<string, int>)
    requires ShortNamesDiffer(handlers)
    ensures NamesDistinct(FanOut(handlers, config))
  {
    if handlers == [] {
    } else {
      var init, last := handlers[..|handlers| - 1], handlers[|handlers| - 1];
      var n := Concurrency(config, last.shortName);
      DifferentNames(init, config);
      var a, b := FanOut(init, config), Fan(last, n);
      var all: seq<Consumer> := a + b;
      forall i, j | 0 <= i < j < |all| ensures all[i].name != all[j].name {
        if i >= |a| {
          if all[i].name == all[j].name {
            HandlerNameInjective(last.shortName, i - |a|, last.shortName, j - |a|);
          }
        } else if j >= |a| {
          FanOutMembers(init, config, a[i]);
          var h, k: nat :| h in init && k < Concurrency(config, h.shortName)
            && a[i] == Consumer(HandlerName(h.shortName, k), h.topic, h.handler);
          if a[i].name == b[j - |a|].name {
            HandlerNameInjective(h.shortName, k, last.shortName, j - |a|);
          }
        } else {
          assert a[i].name != a[j].name;
        }
      }
    }
  }

  lemma {:induction false} FanOutPrefix(handlers: seq<Entry>, config: map<string, int>, n: nat)
    requires n <= |handlers|
    ensures FanOut(handlers[..n], config) <= FanOut(handlers, config)
  {
    if n == |handlers| {
      assert handlers[..n] == handlers;
    } else {
      FanOutPrefix(handlers[..|handlers| - 1], config, n);
      assert handlers[..|handlers| - 1][..n] == handlers[..n];
    }
  }

  /** The consumers of the i-th entry start where those of the entries before it end. */
  lemma FirstConsumerAt(handlers: seq<Entry>, config: map<string, int>, i: nat)
    requires i < |handlers|
    ensures |FanOut(handlers[..i], config)| < |FanOut(handlers[..i + 1], config)| <= |FanOut(handlers, config)|
    ensures FanOut(handlers, config)[|FanOut(handlers[..i], config)|].name == HandlerName(handlers[i].shortName, 0)
  {
    FanOutPrefix(handlers, config, i + 1);
    assert handlers[..i + 1][..i] == handlers[..i];
  }

  /** The generated names are pairwise distinct if and only if the short names are. */
  lemma ConsumerNamesDistinct(handlers: seq<Entry>, config: map<string, int>)
    ensures NamesDistinct(FanOut(handlers, config)) <==> ShortNamesDiffer(handlers)
  {
    if ShortNamesDiffer(handlers) {
      DifferentNames(handlers, config);
    } else {
      var i, j :| 0 <= i < j < |handlers| && handlers[i].shortName == handlers[j].shortName;
      FirstConsumerAt(handlers, config, i);
      FirstConsumerAt(handlers, config, j);
      FanOutPrefix(handlers[..j], config, i + 1);
      assert handlers[..j][..i + 1] == handlers[..i + 1];
    }
  }

  /** The number of consumers of a topic. */
  function CountTopic(consumers: seq<Consumer>, topic: string): nat {
    if consumers == [] then 0 else
      CountTopic(consumers[..|consumers| - 1], topic) + if consumers[|consumers| - 1].topic == topic then 1 else 0
  }

  lemma {:induction false} CountTopicConcat(a: seq<Consumer>, b: seq<Consumer>, topic: string)
    ensures CountTopic(a + b, topic) == CountTopic(a, topic) + CountTopic(b, topic)
  {
    if b == [] {
      assert a + b == a;
    } else {
      CountTopicConcat(a, b[..|b| - 1], topic);
      assert (a + b)[..|a + b| - 1] == a + b[..|b| - 1];
    }
  }

  lemma {:induction false} CountTopicFan(h: Entry, n: nat, topic: string)
    ensures CountTopic(Fan(h, n), topic) == if h.topic == topic then n else 0
  {
    if n == 0 {
    } else {
      CountTopicFan(h, n - 1, topic);
      assert Fan(h, n)[..n - 1] == Fan(h, n - 1);
    }
  }

  function TotalConcurrency(handlers: seq<Entry>, config: map<string, int>): nat {
    if handlers == [] then 0 else
      TotalConcurrency(handlers[..|handlers| - 1], config) + Concurrency(config, handlers[|handlers| - 1].shortName)
  }

  /** Each topic gets exactly the configured number of consumers, or one; the total is their sum. */
  lemma {:induction false} ConsumersPerTopic(handlers: seq<Entry>, config: map<string, int>, k: nat)
    requires forall i, j :: 0 <= i < j < |handlers| ==> handlers[i].topic != handlers[j].topic
    ensures |FanOut(handlers, config)| == TotalConcurrency(handlers, config)
    ensures k < |handlers| ==>
      CountTopic(FanOut(handlers, config), handlers[k].topic) == Concurrency(config, handlers[k].shortName)
  {
    if handlers == [] {
    } else {
      var init, last := handlers[..|handlers| - 1], handlers[|handlers| - 1];
      var n := Concurrency(config, last.shortName);
      ConsumersPerTopic(init, config, k);
      if k < |handlers| {
        var topic := handlers[k].topic;
        CountTopicConcat(FanOut(init, config), Fan(last, n), topic);
        CountTopicFan(last, n, topic);
        if k == |handlers| - 1 {
          NoConsumerOf(init, config, topic);
        }
      }
    }
  }

  lemma {:induction false} NoConsumerOf(handlers: seq<Entry>, config: map<string, int>, topic: string)
    requires forall i :: 0 <= i < |handlers| ==> handlers[i].topic != topic
    ensures CountTopic(FanOut(handlers, config), topic) == 0
  {
    if handlers == [] {
    } else {
      var init, last := handlers[..|handlers| - 1], handlers[|handlers| - 1];
      NoConsumerOf(init, config, topic);
      CountTopicConcat(FanOut(init, config), Fan(last, Concurrency(config, last.shortName)), topic);
      CountTopicFan(last, Concurrency(config, last.shortName), topic);
    }
  }
}
