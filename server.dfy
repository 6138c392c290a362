/** The server's relay state: the list of connected page streams, the single optional broker
    session, and the narration each request or broker event pushes to every page. */
module Server {
  import opened Wrappers
  import opened Strings
  import Wire

  /** One open page stream: everything written to it so far. */
  class Viewer {
    var out: seq<string>

    constructor ()
      ensures out == []
    {
      out := [];
    }
  }

  /** The answer to a `/connect` or `/disconnect` request. */
  datatype Reply = Ok(status: string) | Rejected(code: nat, error: string)

  /** What the live broker handle stands for: the URL and options it was opened with, the
      subscription it asks for, how many subscribe calls are still waiting for their callback,
      and whether `end` has been requested. */
  datatype Session = Session(
    url: string, topic: string, qos: string,
    username: Option<string>, password: Option<string>,
    pendingSubscribes: nat, ending: bool)

  /** The event-stream frame a broadcast writes. */
  function Frame(m: string): string {
    "data: " + m + "\n\n"
  }

  predicate HasScheme(u: string) {
    StartsWith(u, "mqtt://") || StartsWith(u, "tcp://")
  }

  /** The broker URL `/connect` opens: `mqtt://` is put in front unless the given URL already
      starts with `mqtt://` or `tcp://`, and `:port` is appended exactly when a port is given. */
  function ConnectUrl(brokerUrl: string, brokerPort: string): (r: string)
    ensures HasScheme(r)
    ensures HasScheme(brokerUrl) ==> StartsWith(r, brokerUrl)
    ensures !HasScheme(brokerUrl) ==> StartsWith(r, "mqtt://") && StartsWith(r[7..], brokerUrl)
    ensures |r| == |brokerUrl| + (if HasScheme(brokerUrl) then 0 else 7)
                   + (if brokerPort != "" then 1 + |brokerPort| else 0)
    ensures brokerPort != "" ==> EndsWith(r, ":" + brokerPort)
  {
    var base := if HasScheme(brokerUrl) then brokerUrl else "mqtt://" + brokerUrl;
    if brokerPort != "" then base + ":" + brokerPort else base
  }

  /** Building again from a built URL without a port changes nothing. */
  lemma ConnectUrlIdempotent(brokerUrl: string, brokerPort: string)
    ensures ConnectUrl(ConnectUrl(brokerUrl, brokerPort), "") == ConnectUrl(brokerUrl, brokerPort)
  {
  }

  /** A secure scheme is not recognised: `mqtts://h` is opened as `mqtt://mqtts://h`. */
  lemma ConnectUrlSecureScheme(host: string)
    ensures ConnectUrl("mqtts://" + host, "") == "mqtt://mqtts://" + host
  {
    assert ("mqtts://" + host)[4] == 's';
  }

  /** The first position of `v` in the list, or the list's length when it is absent. */
  function FirstIndex(vs: seq<Viewer>, v: Viewer): (k: nat)
    ensures k <= |vs| && v !in vs[..k]
    ensures k < |vs| ==> vs[k] == v
    ensures k == |vs| <==> v !in vs
  {
    if vs == [] then 0
    else if vs[0] == v then 0
    else
      assert vs[..1 + FirstIndex(vs[1..], v)] == [vs[0]] + vs[1..][..FirstIndex(vs[1..], v)];
      1 + FirstIndex(vs[1..], v)
  }

  /** The list with the first occurrence of `v` spliced out, as `indexOf` and `splice` do. */
  function Remove(vs: seq<Viewer>, v: Viewer): seq<Viewer> {
    var k := FirstIndex(vs, v);
    if k < |vs| then vs[..k] + vs[k + 1..] else vs
  }

  /** Removing an absent viewer changes nothing; removing a present one takes away exactly
      one occurrence of it and nothing else. */
  lemma RemoveSpec(vs: seq<Viewer>, v: Viewer)
    ensures v !in vs ==> Remove(vs, v) == vs
    ensures v in vs ==> |Remove(vs, v)| == |vs| - 1
    ensures multiset(Remove(vs, v)) == multiset(vs) - multiset{v}
  {
    var k := FirstIndex(vs, v);
    if k < |vs| {
      assert vs == vs[..k] + [vs[k]] + vs[k + 1..];
    }
  }

  predicate Distinct(vs: seq<Viewer>) {
    forall i, j :: 0 <= i < j < |vs| ==> vs[i] != vs[j]
  }

  /** Removing from a list without repeats leaves a list without repeats that no longer
      holds `v`. */
  lemma RemoveDistinct(vs: seq<Viewer>, v: Viewer)
    requires Distinct(vs)
    ensures Distinct(Remove(vs, v)) && v !in Remove(vs, v)
  {
    var k := FirstIndex(vs, v);
    if k < |vs| {
      var r := Remove(vs, v);
      forall i | 0 <= i < |r|
        ensures r[i] == vs[if i < k then i else i + 1]
      {
      }
      forall i, j | 0 <= i < j < |r|
        ensures r[i] != r[j]
      {
        assert r[i] == vs[if i < k then i else i + 1];
        assert r[j] == vs[if j < k then j else j + 1];
      }
      forall i | 0 <= i < |r|
        ensures r[i] != v
      {
        assert r[i] == vs[if i < k then i else i + 1];
      }
    }
  }

  class Bridge {
    var viewers: seq<Viewer>
    var session: Option<Session>

    /** A page stream is registered at most once. */
    ghost predicate Valid()
      reads this
    {
      Distinct(viewers)
    }

    constructor ()
      ensures Valid() && viewers == [] && session == None
    {
      viewers := [];
      session := None;
    }

    /** `GET /events`: a new stream is registered at the end of the list. */
    method Attach() returns (v: Viewer)
      requires Valid()
      modifies this
      ensures Valid()
      ensures fresh(v) && v.out == []
      ensures viewers == old(viewers) + [v] && session == old(session)
    {
      v := new Viewer();
      viewers := viewers + [v];
    }

    /** A stream closing: its first position in the list is looked up and spliced out; a
        stream no longer in the list leaves it as it is. */
    method Close(v: Viewer)
      requires Valid()
      modifies this
      ensures Valid()
      ensures viewers == Remove(old(viewers), v) && session == old(session)
    {
      var index := 0;
      while index < |viewers| && viewers[index] != v
        invariant 0 <= index <= |viewers|
        invariant v !in viewers[..index]
      {
        assert viewers[..index + 1] == viewers[..index] + [viewers[index]];
        index := index + 1;
      }
      RemoveDistinct(viewers, v);
      if index < |viewers| {
        viewers := viewers[..index] + viewers[index + 1..];
      } else {
        assert viewers[..index] == viewers;
      }
    }

    /** `broadcastMessage`: every registered stream receives the frame exactly once, and the
        list itself is left alone. */
    method Broadcast(m: string)
      requires Valid()
      modifies viewers
      ensures forall k :: 0 <= k < |viewers| ==> viewers[k].out == old(viewers[k].out) + [Frame(m)]
    {
      for i := 0 to |viewers|
        invariant forall k :: 0 <= k < i ==> viewers[k].out == old(viewers[k].out) + [Frame(m)]
        invariant forall k :: i <= k < |viewers| ==> viewers[k].out == old(viewers[k].out)
      {
        viewers[i].out := viewers[i].out + [Frame(m)];
      }
    }

    /** `POST /connect`: rejected with nothing broadcast while a session exists; otherwise the
        URL is built, the attempt is narrated, and the session is opened with the username
        and password only when they are non-empty. */
    method Connect(brokerUrl: string, brokerPort: string, topic: string,
                   username: string, password: string, qos: string) returns (reply: Reply)
      requires Valid()
      modifies this, viewers
      ensures Valid() && viewers == old(viewers)
      ensures old(session).Some? ==>
        && reply == Rejected(400, "Already connected")
        && session == old(session)
        && forall k :: 0 <= k < |viewers| ==> viewers[k].out == old(viewers[k].out)
      ensures old(session).None? ==>
        && reply == Ok("Connecting")
        && session == Some(Session(ConnectUrl(brokerUrl, brokerPort), topic, qos,
                                   if username != "" then Some(username) else None,
                                   if password != "" then Some(password) else None, 0, false))
        && forall k :: 0 <= k < |viewers| ==>
             viewers[k].out == old(viewers[k].out) + [Frame("Connecting to: " + ConnectUrl(brokerUrl, brokerPort) + " ...")]
    {
      if session.Some? {
        return Rejected(400, "Already connected");
      }
      var connectUrl := brokerUrl;
      if !StartsWith(connectUrl, "mqtt://") && !StartsWith(connectUrl, "tcp://") {
        connectUrl := "mqtt://" + connectUrl;
      }
      if brokerPort != "" {
        connectUrl := connectUrl + ":" + brokerPort;
      }
      var user: Option<string> := None;
      var pass: Option<string> := None;
      if username != "" { user := Some(username); }
      if password != "" { pass := Some(password); }
      Broadcast("Connecting to: " + connectUrl + " ...");
      session := Some(Session(connectUrl, topic, qos, user, pass, 0, false));
      reply := Ok("Connecting");
    }

    /** The broker accepted the connection: it is narrated and one subscribe call for the
        session's topic is issued. */
    method BrokerConnected()
      requires Valid() && session.Some?
      modifies this, viewers
      ensures Valid() && viewers == old(viewers)
      ensures session == Some(old(session).value.(pendingSubscribes := old(session).value.pendingSubscribes + 1))
      ensures forall k :: 0 <= k < |viewers| ==>
        viewers[k].out == old(viewers[k].out) + [Frame("Connected to broker at " + session.value.url)]
    {
      Broadcast("Connected to broker at " + session.value.url);
      session := Some(session.value.(pendingSubscribes := session.value.pendingSubscribes + 1));
    }

    /** A subscribe callback: exactly one of the two outcomes is narrated. */
    method SubscribeDone(err: Option<string>)
      requires Valid() && session.Some? && session.value.pendingSubscribes > 0
      modifies this, viewers
      ensures Valid() && viewers == old(viewers)
      ensures session == Some(old(session).value.(pendingSubscribes := old(session).value.pendingSubscribes - 1))
      ensures err.Some? ==> forall k :: 0 <= k < |viewers| ==>
        viewers[k].out == old(viewers[k].out) + [Frame("Subscription error: " + err.value)]
      ensures err.None? ==> forall k :: 0 <= k < |viewers| ==>
        viewers[k].out == old(viewers[k].out)
          + [Frame("Subscribed to topic: " + session.value.topic + " (QoS: " + session.value.qos + ")")]
    {
      if err.Some? {
        Broadcast("Subscription error: " + err.value);
      } else {
        Broadcast("Subscribed to topic: " + session.value.topic + " (QoS: " + session.value.qos + ")");
      }
      session := Some(session.value.(pendingSubscribes := session.value.pendingSubscribes - 1));
    }

    /** A message from the broker is relayed to every page in the line format the page
        decodes. */
    method BrokerMessage(topic: string, payload: string)
      requires Valid() && session.Some?
      modifies viewers
      ensures forall k :: 0 <= k < |viewers| ==>
        viewers[k].out == old(viewers[k].out) + [Frame(Wire.Encode(topic, payload))]
    {
      Broadcast("Topic: " + topic + " | Message: " + payload);
    }

    /** A broker error is narrated; the session stays, so `/connect` is still rejected. */
    method BrokerError(message: string)
      requires Valid() && session.Some?
      modifies viewers
      ensures session == old(session)
      ensures forall k :: 0 <= k < |viewers| ==>
        viewers[k].out == old(viewers[k].out) + [Frame("MQTT Error: " + message)]
    {
      Broadcast("MQTT Error: " + message);
    }

    /** `POST /disconnect`: rejected without a session; otherwise `end` is requested and the
        session stays until its callback, so nothing is broadcast yet. */
    method Disconnect() returns (reply: Reply)
      requires Valid()
      modifies this
      ensures Valid() && viewers == old(viewers)
      ensures old(session).None? ==> reply == Rejected(400, "Not connected") && session == None
      ensures old(session).Some? ==>
        reply == Ok("Disconnecting") && session == Some(old(session).value.(ending := true))
    {
      if session.Some? {
        session := Some(session.value.(ending := true));
        reply := Ok("Disconnecting");
      } else {
        reply := Rejected(400, "Not connected");
      }
    }

    /** The `end` callback: the disconnection is narrated and only now is the session
        cleared. */
    method EndDone()
      requires Valid() && session.Some? && session.value.ending
      modifies this, viewers
      ensures Valid() && viewers == old(viewers) && session == None
      ensures forall k :: 0 <= k < |viewers| ==>
        viewers[k].out == old(viewers[k].out) + [Frame("Disconnected from MQTT broker.")]
    {
      Broadcast("Disconnected from MQTT broker.");
      session := None;
    }
  }
}
