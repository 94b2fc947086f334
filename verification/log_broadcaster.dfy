/** The log broadcaster of the subscription system: instead of pushing to a
    transport, it remembers the last payload sent on each channel, so that
    the payloads can be inspected. Its webhook handlers answer with fixed
    responses and its configuration is whatever it was created with.
    The broadcaster is an immutable record; `Broadcast` returns the next one. */
module LogBroadcaster {
  import opened Wrappers

  /** The part of a subscriber the broadcaster reads: its channel name. */
  datatype Subscriber = Subscriber(channel: string)

  /** A JSON response: its HTTP status and its body object. */
  datatype JsonResponse = JsonResponse(status: int, body: map<string, string>)

  /** The broadcaster's state: the last payload per channel and the
      configuration options it was created with. */
  datatype Broadcaster<D, C> = Broadcaster(broadcasts: map<string, D>, config: map<string, C>)

  /** The result of `broadcasts($key)`: the whole map for a null key, else the
      payload stored under the key (None when there is none). */
  datatype Lookup<D> = AllBroadcasts(entries: map<string, D>) | Payload(value: Option<D>)

  /** `new LogBroadcaster($config)`: no broadcasts yet. */
  function Create<D, C>(config: map<string, C>): (b: Broadcaster<D, C>)
    ensures |b.broadcasts| == 0
    ensures b.config == config
  {
    Broadcaster(map[], config)
  }

  /** `new LogBroadcaster()`: the configuration defaults to an empty array. */
  function CreateDefault<D, C>(): (b: Broadcaster<D, C>)
    ensures |b.broadcasts| == 0 && |b.config| == 0
  {
    Create(map[])
  }

  /** The webhook answering an authorized subscription request. */
  function Authorized<R>(request: R): (r: JsonResponse)
    ensures r.status == 200
    ensures r.body.Keys == {"message"} && r.body["message"] == "ok"
  {
    JsonResponse(200, map["message" := "ok"])
  }

  /** The webhook answering an unauthorized subscription request. */
  function Unauthorized<R>(request: R): (r: JsonResponse)
    ensures r.status == 403
    ensures r.body.Keys == {"error"} && r.body["error"] == "unauthorized"
  {
    JsonResponse(403, map["error" := "unauthorized"])
  }

  /** The webhook acknowledging a provider's event callback. */
  function Hook<R>(request: R): (r: JsonResponse)
    ensures r.status == 200
    ensures r.body.Keys == {"message"} && r.body["message"] == "okay"
  {
    JsonResponse(200, map["message" := "okay"])
  }

  /** `broadcast($subscriber, $data)`: records `data` as the last payload of the
      subscriber's channel. */
  function Broadcast<D, C>(b: Broadcaster<D, C>, subscriber: Subscriber, data: D): (r: Broadcaster<D, C>)
    ensures subscriber.channel in r.broadcasts && r.broadcasts[subscriber.channel] == data
    ensures r.broadcasts.Keys == b.broadcasts.Keys + {subscriber.channel}
    ensures forall ch :: ch in b.broadcasts && ch != subscriber.channel ==> r.broadcasts[ch] == b.broadcasts[ch]
    ensures r.config == b.config
  {
    b.(broadcasts := b.broadcasts[subscriber.channel := data])
  }

  /** `broadcasts($key)`, with an exact-key lookup. */
  function Broadcasts<D, C>(b: Broadcaster<D, C>, key: Option<string>): (r: Lookup<D>)
    ensures key.None? ==> r == AllBroadcasts(b.broadcasts)
    ensures key.Some? ==> r.Payload? && (r.value.Some? <==> key.value in b.broadcasts)
    ensures key.Some? && key.value in b.broadcasts ==> r.value == Some(b.broadcasts[key.value])
  {
    match key
    case None => AllBroadcasts(b.broadcasts)
    case Some(channel) => Payload(if channel in b.broadcasts then Some(b.broadcasts[channel]) else None)
  }

  /** `config()`. */
  function Config<D, C>(b: Broadcaster<D, C>): map<string, C> {
    b.config
  }

  /** A fresh broadcaster has nothing stored under any channel. */
  lemma CreateHoldsNothing<D, C>(config: map<string, C>, channel: string)
    ensures Broadcasts(Create<D, C>(config), None) == AllBroadcasts(map[])
    ensures Broadcasts(Create<D, C>(config), Some(channel)) == Payload(None)
  {
  }

  /** After broadcasting, reading the subscriber's channel yields the payload. */
  lemma BroadcastThenRead<D, C>(b: Broadcaster<D, C>, subscriber: Subscriber, data: D)
    ensures Broadcasts(Broadcast(b, subscriber, data), Some(subscriber.channel)) == Payload(Some(data))
  {
  }

  /** Broadcasting on one channel leaves what every other channel reads unchanged. */
  lemma BroadcastLeavesOtherChannels<D, C>(b: Broadcaster<D, C>, subscriber: Subscriber, data: D, channel: string)
    requires channel != subscriber.channel
    ensures Broadcasts(Broadcast(b, subscriber, data), Some(channel)) == Broadcasts(b, Some(channel))
  {
  }

  /** Two broadcasts on the same channel leave the same state as the later one
      alone: last write wins. */
  lemma BroadcastOverwrites<D, C>(b: Broadcaster<D, C>, s1: Subscriber, d1: D, s2: Subscriber, d2: D)
    requires s1.channel == s2.channel
    ensures Broadcast(Broadcast(b, s1, d1), s2, d2) == Broadcast(b, s2, d2)
  {
  }

  /** Broadcasts on different channels can be applied in either order. */
  lemma BroadcastsCommute<D, C>(b: Broadcaster<D, C>, s1: Subscriber, d1: D, s2: Subscriber, d2: D)
    requires s1.channel != s2.channel
    ensures Broadcast(Broadcast(b, s1, d1), s2, d2) == Broadcast(Broadcast(b, s2, d2), s1, d1)
  {
  }

  /** One call of `broadcast`. */
  datatype Event<D> = Event(subscriber: Subscriber, data: D)

  /** The broadcaster after a sequence of broadcasts, in order. */
  function Replay<D, C>(b: Broadcaster<D, C>, events: seq<Event<D>>): Broadcaster<D, C>
    decreases |events|
  {
    if |events| == 0 then b
    else
      var last := events[|events| - 1];
      Broadcast(Replay(b, events[..|events| - 1]), last.subscriber, last.data)
  }

  /** The payload of the latest event on `channel`, if there is one. */
  function LastSent<D>(events: seq<Event<D>>, channel: string): Option<D>
    decreases |events|
  {
    if |events| == 0 then None
    else
      var last := |events| - 1;
      if events[last].subscriber.channel == channel then Some(events[last].data)
      else LastSent(events[..last], channel)
  }

  /** Is event `i` the latest one on `channel`? */
  predicate IsLatestOn<D>(events: seq<Event<D>>, channel: string, i: int) {
    && 0 <= i < |events|
    && events[i].subscriber.channel == channel
    && forall j :: i < j < |events| ==> events[j].subscriber.channel != channel
  }

  /** `LastSent` finds nothing exactly when no event is on `channel`, and
      otherwise the payload of the latest event on it. */
  lemma {:induction false} LastSentIsLatest<D>(events: seq<Event<D>>, channel: string)
    ensures LastSent(events, channel).None? <==> forall i :: 0 <= i < |events| ==> events[i].subscriber.channel != channel
    ensures LastSent(events, channel).Some? ==>
      exists i :: IsLatestOn(events, channel, i) && events[i].data == LastSent(events, channel).value
    decreases |events|
  {
    if |events| > 0 {
      var last := |events| - 1;
      if events[last].subscriber.channel == channel {
        assert IsLatestOn(events, channel, last);
      } else {
        var init := events[..last];
        LastSentIsLatest(init, channel);
        assert forall i :: 0 <= i < last ==> init[i] == events[i];
        if LastSent(init, channel).Some? {
          var i :| IsLatestOn(init, channel, i) && init[i].data == LastSent(init, channel).value;
          assert IsLatestOn(events, channel, i);
        }
      }
    }
  }

  /** Starting from a fresh broadcaster, every channel reads the payload of the
      latest broadcast on it, and nothing when there was none. */
  lemma {:induction false} ReplayReadsLastPayload<D, C>(config: map<string, C>, events: seq<Event<D>>, channel: string)
    ensures Broadcasts(Replay(Create<D, C>(config), events), Some(channel)) == Payload(LastSent(events, channel))
    decreases |events|
  {
    if |events| > 0 {
      var last := events[|events| - 1];
      var before := Replay(Create<D, C>(config), events[..|events| - 1]);
      ReplayReadsLastPayload(config, events[..|events| - 1], channel);
      if last.subscriber.channel == channel {
        BroadcastThenRead(before, last.subscriber, last.data);
      } else {
        BroadcastLeavesOtherChannels(before, last.subscriber, last.data, channel);
      }
    }
  }

  /** No sequence of broadcasts changes the configuration. */
  lemma {:induction false} ConfigSurvivesReplay<D, C>(config: map<string, C>, events: seq<Event<D>>)
    ensures Config(Replay(Create<D, C>(config), events)) == config
    decreases |events|
  {
    if |events| > 0 {
      ConfigSurvivesReplay<D, C>(config, events[..|events| - 1]);
    }
  }
}
