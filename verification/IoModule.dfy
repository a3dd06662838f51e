/**
 * The I/O module between the message bus and a HELICS federation. Updates from the bus are coalesced per tag
 * in a dictionary; every simulation step first publishes from it, then sends to remote endpoints, and each
 * action that is configured clears it. Bus updates come in on another thread, between any two actions.
 */
module IoModule {
  import opened MessageBus

  // ---- configuration ----

  /** HELICS publications carry truth values or floating-point numbers. */
  datatype Publication = Publication(topic: string, boolean: bool)

  datatype PubValue = Flag(b: bool) | Number(x: real)

  datatype Route = Route(topic: string, endpoint: string)

  datatype Config = Config(
    pubs: seq<Publication>, tagOf: map<string, string>, typeOf: map<string, Publication>,
    hasEndpoints: bool, routes: map<string, seq<Route>>)
  {
    /** Every topic that is published has a tag and a type. */
    ghost predicate Sound() {
      forall p :: p in pubs ==> p.topic in tagOf && p.topic in typeOf
    }
  }

  function Cast(p: Publication, value: real): PubValue {
    if p.boolean then Flag(value != 0.0) else Number(value)
  }

  // ---- the dictionary of updated tags, which keeps the order of first entry ----

  predicate DistinctTags(d: seq<Point>) {
    forall i, j :: 0 <= i < j < |d| ==> d[i].tag != d[j].tag
  }

  function Get(d: seq<Point>, tag: string): Option<real> {
    if d == [] then None else if d[0].tag == tag then Some(d[0].value) else Get(d[1..], tag)
  }

  function Set(d: seq<Point>, p: Point): seq<Point> {
    if d == [] then [p] else if d[0].tag == p.tag then [p] + d[1..] else [d[0]] + Set(d[1..], p)
  }

  function Receive(d: seq<Point>, points: seq<Point>): seq<Point> {
    if points == [] then d else Set(Receive(d, points[..|points| - 1]), points[|points| - 1])
  }

  /** The value of the last point with a tag. */
  function Latest(points: seq<Point>, tag: string): Option<real> {
    if points == [] then None
    else if points[|points| - 1].tag == tag then Some(points[|points| - 1].value)
    else Latest(points[..|points| - 1], tag)
  }

  lemma {:induction false} SetGet(d: seq<Point>, p: Point, tag: string)
    ensures Get(Set(d, p), tag) == if tag == p.tag then Some(p.value) else Get(d, tag)
  {
    if d != [] && d[0].tag != p.tag {
      SetGet(d[1..], p, tag);
      assert Set(d, p)[1..] == Set(d[1..], p);
    } else if d != [] {
      assert Set(d, p)[1..] == d[1..];
    }
  }

  lemma {:induction false} SetTags(d: seq<Point>, p: Point)
    requires DistinctTags(d)
    ensures DistinctTags(Set(d, p))
    ensures forall i :: 0 <= i < |Set(d, p)| ==> Set(d, p)[i] == p || Set(d, p)[i] in d
  {
    if d != [] && d[0].tag != p.tag {
      SetTags(d[1..], p);
    }
  }

  /** Coalescing keeps, for every tag, its latest value only. */
  lemma {:induction false} ReceiveLatest(points: seq<Point>, tag: string)
    ensures DistinctTags(Receive([], points)) && Get(Receive([], points), tag) == Latest(points, tag)
  {
    if points != [] {
      var n := |points| - 1;
      ReceiveLatest(points[..n], tag);
      SetGet(Receive([], points[..n]), points[n], tag);
      SetTags(Receive([], points[..n]), points[n]);
    }
  }

  lemma {:induction false} LatestAppend(a: seq<Point>, b: seq<Point>, tag: string)
    ensures Latest(a + b, tag) == if Latest(b, tag).Some? then Latest(b, tag) else Latest(a, tag)
  {
    if b == [] {
      assert a + b == a;
    } else {
      assert (a + b)[..|a + b| - 1] == a + b[..|b| - 1];
      LatestAppend(a, b[..|b| - 1], tag);
    }
  }

  lemma {:induction false} ReceiveAppend(d: seq<Point>, a: seq<Point>, b: seq<Point>)
    ensures Receive(d, a + b) == Receive(Receive(d, a), b)
  {
    if b == [] {
      assert a + b == a;
    } else {
      assert (a + b)[..|a + b| - 1] == a + b[..|b| - 1];
      ReceiveAppend(d, a, b[..|b| - 1]);
    }
  }

  // ---- publishing ----

  type Data = map<string, Option<PubValue>>

  /** The values to publish after an update: those of updated tags change, all others stay. */
  function Refreshed(c: Config, d: seq<Point>, k: string, v: Option<PubValue>): Option<PubValue> {
    if k !in c.tagOf || k !in c.typeOf || c.tagOf[k] == "" then v
    else match Get(d, c.tagOf[k])
      case Some(x) => Some(Cast(c.typeOf[k], x))
      case None => v
  }

  function Refresh(c: Config, d: seq<Point>, data: Data): Data {
    map k | k in data :: Refreshed(c, d, k, data[k])
  }

  datatype Topic = Topic(topic: string, value: PubValue)

  function Topics(pubs: seq<Publication>, data: Data): seq<Topic> {
    if pubs == [] then []
    else
      var k := pubs[|pubs| - 1].topic;
      Topics(pubs[..|pubs| - 1], data) + if k in data && data[k].Some? then [Topic(k, data[k].value)] else []
  }

  /** Exactly the topics that have a value are published, each with that value. */
  lemma {:induction false} TopicsPublished(pubs: seq<Publication>, data: Data, t: Topic)
    ensures t in Topics(pubs, data)
       <==> (exists p :: p in pubs && p.topic == t.topic) && t.topic in data && data[t.topic] == Some(t.value)
  {
    if pubs != [] {
      var n := |pubs| - 1;
      TopicsPublished(pubs[..n], data, t);
      assert pubs == pubs[..n] + [pubs[n]];
      if t in Topics(pubs, data) && t !in Topics(pubs[..n], data) {
        assert pubs[n].topic == t.topic;
      }
    }
  }

  // ---- sending ----

  /** One message carries all the items for one endpoint. */
  datatype Message = Message(endpoint: string, items: seq<Point>)

  function Post(messages: seq<Message>, endpoint: string, item: Point): seq<Message> {
    if messages == [] then [Message(endpoint, [item])]
    else if messages[0].endpoint == endpoint then [messages[0].(items := messages[0].items + [item])] + messages[1..]
    else [messages[0]] + Post(messages[1..], endpoint, item)
  }

  function PostAll(messages: seq<Message>, routes: seq<Route>, value: real): seq<Message> {
    if routes == [] then messages
    else
      var r := routes[|routes| - 1];
      Post(PostAll(messages, routes[..|routes| - 1], value), r.endpoint, Point(r.topic, value))
  }

  function RoutesOf(c: Config, tag: string): seq<Route> {
    if tag in c.routes then c.routes[tag] else []
  }

  function Messages(c: Config, d: seq<Point>): seq<Message> {
    if d == [] then []
    else
      var p := d[|d| - 1];
      PostAll(Messages(c, d[..|d| - 1]), RoutesOf(c, p.tag), p.value)
  }

  /** What an endpoint receives under a topic, over all messages. */
  function Delivered(messages: seq<Message>, r: Route): seq<real> {
    if messages == [] then []
    else (if messages[0].endpoint == r.endpoint then Values(messages[0].items, r.topic)
          else []) + Delivered(messages[1..], r)
  }

  function Values(items: seq<Point>, topic: string): seq<real> {
    if items == [] then []
    else Values(items[..|items| - 1], topic) + if items[|items| - 1].tag == topic then [items[|items| - 1].value]
      else []
  }

  predicate OnePerEndpoint(messages: seq<Message>) {
    forall i, j :: 0 <= i < j < |messages| ==> messages[i].endpoint != messages[j].endpoint
  }

  lemma {:induction false} PostedOnce(messages: seq<Message>, endpoint: string, item: Point)
    requires OnePerEndpoint(messages)
    ensures OnePerEndpoint(Post(messages, endpoint, item))
    ensures |Post(messages, endpoint, item)| >= |messages|
    ensures forall i :: 0 <= i < |messages| ==> Post(messages, endpoint, item)[i].endpoint == messages[i].endpoint
    ensures forall i :: |messages| <= i < |Post(messages, endpoint, item)| ==>
              Post(messages, endpoint, item)[i].endpoint == endpoint
  {
    if messages != [] && messages[0].endpoint != endpoint {
      PostedOnce(messages[1..], endpoint, item);
    }
  }

  lemma {:induction false} Posted(messages: seq<Message>, endpoint: string, item: Point, r: Route)
    requires OnePerEndpoint(messages)
    ensures Delivered(Post(messages, endpoint, item), r)
         == Delivered(messages, r) + if r == Route(item.tag, endpoint) then [item.value] else []
  {
    hide Values;
    var all := Post(messages, endpoint, item);
    if messages == [] {
      ValuesMore([], item, r.topic);
      assert [] + [item] == [item];
    } else {
      var first, rest := messages[0], messages[1..];
      if first.endpoint == endpoint {
        assert all[1..] == rest;
        ValuesMore(first.items, item, r.topic);
        NotDelivered(rest, r, endpoint);
      } else {
        assert all[1..] == Post(rest, endpoint, item);
        Posted(rest, endpoint, item, r);
      }
    }
  }

  lemma ValuesMore(items: seq<Point>, item: Point, topic: string)
    ensures Values(items + [item], topic) == Values(items, topic) + if item.tag == topic then [item.value] else []
    ensures Values([], topic) == []
  {
    assert (items + [item])[..|items|] == items;
  }

  lemma {:induction false} NotDelivered(messages: seq<Message>, r: Route, endpoint: string)
    requires forall i :: 0 <= i < |messages| ==> messages[i].endpoint != endpoint
    ensures r.endpoint == endpoint ==> Delivered(messages, r) == []
  {
    if messages != [] {
      NotDelivered(messages[1..], r, endpoint);
    }
  }

  function Count(routes: seq<Route>, r: Route): nat {
    if routes == [] then 0 else Count(routes[..|routes| - 1], r) + if routes[|routes| - 1] == r then 1 else 0
  }

  function Copies(x: real, n: nat): seq<real> {
    if n == 0 then [] else Copies(x, n - 1) + [x]
  }

  lemma {:induction false} AllPosted(messages: seq<Message>, routes: seq<Route>, value: real, r: Route)
    requires OnePerEndpoint(messages)
    ensures OnePerEndpoint(PostAll(messages, routes, value))
    ensures Delivered(PostAll(messages, routes, value), r) == Delivered(messages, r) + Copies(value, Count(routes, r))
  {
    if routes != [] {
      var n := |routes| - 1;
      AllPosted(messages, routes[..n], value, r);
      var before := PostAll(messages, routes[..n], value);
      PostedOnce(before, routes[n].endpoint, Point(routes[n].topic, value));
      Posted(before, routes[n].endpoint, Point(routes[n].topic, value), r);
    }
  }

  /** No two tags are routed to one topic of one endpoint, and no route of a tag is configured twice. */
  predicate OwnRoute(c: Config, tag: string, r: Route) {
    Count(RoutesOf(c, tag), r) == 1 && forall t :: t in c.routes && t != tag ==> Count(c.routes[t], r) == 0
  }

  /**
   * What is sent for a dictionary: for each endpoint one message, in which each routed tag's value stands exactly once.
   */
  lemma {:induction false} MessagesDeliver(c: Config, d: seq<Point>, tag: string, r: Route)
    requires DistinctTags(d) && OwnRoute(c, tag, r)
    ensures OnePerEndpoint(Messages(c, d))
    ensures Delivered(Messages(c, d), r) == match Get(d, tag) case Some(x) => [x] case None => []
  {
    if d != [] {
      var n := |d| - 1;
      var p := d[n];
      MessagesDeliver(c, d[..n], tag, r);
      AllPosted(Messages(c, d[..n]), RoutesOf(c, p.tag), p.value, r);
      GetLast(d, tag);
      assert Copies(p.value, 0) == [] && Copies(p.value, 1) == [p.value];
    }
  }

  /** What no tag is routed to is sent nothing. */
  lemma {:induction false} NothingElseSent(c: Config, d: seq<Point>, r: Route)
    requires forall t :: t in c.routes ==> Count(c.routes[t], r) == 0
    ensures OnePerEndpoint(Messages(c, d)) && Delivered(Messages(c, d), r) == []
  {
    if d != [] {
      var n := |d| - 1;
      NothingElseSent(c, d[..n], r);
      AllPosted(Messages(c, d[..n]), RoutesOf(c, d[n].tag), d[n].value, r);
      assert Count([], r) == 0 && Copies(d[n].value, 0) == [];
    }
  }

  lemma {:induction false} GetLast(d: seq<Point>, tag: string)
    requires d != [] && DistinctTags(d)
    ensures var n := |d| - 1;
            Get(d, tag) == if d[n].tag == tag then Some(d[n].value) else Get(d[..n], tag)
    ensures d[|d| - 1].tag == tag ==> Get(d[..|d| - 1], tag).None?
  {
    if |d| > 1 {
      var rest := d[1..];
      assert rest[..|rest| - 1] == d[..|d| - 1][1..];
      GetLast(rest, tag);
    }
  }

  // ---- runs ----

  datatype Event = Bus(points: seq<Point>) | Publishing | Sending

  datatype State = State(updated: seq<Point>, data: Data)

  function Initial(c: Config): State {
    State([], map p | p in c.pubs :: p.topic := None)
  }

  function Next(c: Config, s: State, e: Event): State {
    match e
    case Bus(points) => s.(updated := Receive(s.updated, points))
    case Publishing => if c.pubs == [] then s else State([], Refresh(c, s.updated, s.data))
    case Sending => if c.hasEndpoints then s.(updated := []) else s
  }

  /** The state after any interleaving of bus messages and actions. */
  function After(c: Config, events: seq<Event>): State {
    if events == [] then Initial(c) else Next(c, After(c, events[..|events| - 1]), events[|events| - 1])
  }

  // ---- what a run gives away ----

  datatype Output = Published(topics: seq<Topic>) | Sent(messages: seq<Message>)

  /** What a step hands to HELICS. */
  function Emits(c: Config, s: State, e: Event): seq<Output> {
    match e
    case Bus(_) => []
    case Publishing => [Published(Topics(c.pubs, Next(c, s, e).data))]
    case Sending => if c.hasEndpoints then [Sent(Messages(c, s.updated))] else []
  }

  /** Everything handed over in a run, in order. */
  function Trace(c: Config, events: seq<Event>): seq<Output> {
    if events == [] then []
    else
      var rest := events[..|events| - 1];
      Trace(c, rest) + Emits(c, After(c, rest), events[|events| - 1])
  }

  /** What an endpoint receives under a topic, over a whole run. */
  function DeliveredBy(outputs: seq<Output>, r: Route): seq<real> {
    if outputs == [] then []
    else
      var o := outputs[|outputs| - 1];
      DeliveredBy(outputs[..|outputs| - 1], r) + if o.Sent? then Delivered(o.messages, r) else []
  }

  ghost function ValuesUnder(topics: seq<Topic>, topic: string): set<PubValue> {
    set t | t in topics && t.topic == topic :: t.value
  }

  /** What is published under a topic, one entry for each publishing action. */
  ghost function PublishedBy(outputs: seq<Output>, topic: string): seq<set<PubValue>> {
    if outputs == [] then []
    else
      var o := outputs[|outputs| - 1];
      PublishedBy(outputs[..|outputs| - 1], topic) + if o.Published? then [ValuesUnder(o.topics, topic)] else []
  }

  lemma DeliveredMore(outputs: seq<Output>, more: seq<Output>, r: Route)
    requires |more| <= 1
    ensures DeliveredBy(outputs + more, r)
         == DeliveredBy(outputs, r) + if more != [] && more[0].Sent? then Delivered(more[0].messages, r) else []
  {
    if more == [] {
      assert outputs + more == outputs;
    } else {
      assert (outputs + more)[..|outputs|] == outputs;
    }
  }

  lemma PublishedMore(outputs: seq<Output>, more: seq<Output>, topic: string)
    requires |more| <= 1
    ensures PublishedBy(outputs + more, topic)
         == PublishedBy(outputs, topic) + if more != [] && more[0].Published? then [ValuesUnder(more[0].topics, topic)]
           else []
  {
    if more == [] {
      assert outputs + more == outputs;
    } else {
      assert (outputs + more)[..|outputs|] == outputs;
    }
  }

  // ---- what a run is told ----

  /** The points received since the last action that clears the dictionary. */
  function Pending(c: Config, events: seq<Event>): seq<Point> {
    if events == [] then []
    else
      var before := Pending(c, events[..|events| - 1]);
      match events[|events| - 1]
      case Bus(points) => before + points
      case Publishing => if c.pubs == [] then before else []
      case Sending => if c.hasEndpoints then [] else before
  }

  /** All points ever received. */
  function Heard(events: seq<Event>): seq<Point> {
    if events == [] then []
    else
      var before := Heard(events[..|events| - 1]);
      match events[|events| - 1]
      case Bus(points) => before + points
      case _ => before
  }

  /** For each time that an action finds the dictionary, what came in since it was last cleared. */
  function Stretches(c: Config, events: seq<Event>, action: Event): seq<seq<Point>> {
    if events == [] then []
    else
      var rest, e := events[..|events| - 1], events[|events| - 1];
      if e == action && (if action.Publishing? then c.pubs != [] else action.Sending? && c.hasEndpoints)
      then Stretches(c, rest, action) + [Pending(c, rest)] else Stretches(c, rest, action)
  }

  function Flat(stretches: seq<seq<Point>>): seq<Point> {
    if stretches == [] then [] else Flat(stretches[..|stretches| - 1]) + stretches[|stretches| - 1]
  }

  /** The latest value of each stretch that mentions the tag. */
  function LatestOfEach(stretches: seq<seq<Point>>, tag: string): seq<real> {
    if stretches == [] then []
    else
      LatestOfEach(stretches[..|stretches| - 1], tag)
      + match Latest(stretches[|stretches| - 1], tag) case Some(x) => [x] case None => []
  }

  lemma StretchMore(stretches: seq<seq<Point>>, last: seq<Point>, tag: string)
    ensures Flat(stretches + [last]) == Flat(stretches) + last
    ensures LatestOfEach(stretches + [last], tag)
         == LatestOfEach(stretches, tag) + match Latest(last, tag) case Some(x) => [x] case None => []
  {
    assert (stretches + [last])[..|stretches|] == stretches;
  }

  /** The last of these values is the latest of all. */
  lemma {:induction false} LatestOfAll(stretches: seq<seq<Point>>, tag: string)
    ensures var values := LatestOfEach(stretches, tag);
            match Latest(Flat(stretches), tag)
            case Some(x) => values != [] && values[|values| - 1] == x
            case None => values == []
  {
    if stretches != [] {
      var n := |stretches| - 1;
      LatestOfAll(stretches[..n], tag);
      LatestAppend(Flat(stretches[..n]), stretches[n], tag);
    }
  }

  lemma {:induction false} UpdatedIsPending(c: Config, events: seq<Event>)
    ensures After(c, events).updated == Receive([], Pending(c, events))
  {
    if events != [] {
      var rest, e := events[..|events| - 1], events[|events| - 1];
      UpdatedIsPending(c, rest);
      if e.Bus? {
        ReceiveAppend([], Pending(c, rest), e.points);
      }
    }
  }

  // ---- sending over whole runs ----

  /** A send delivers, under every route, exactly the latest pending value, exactly once; nothing if none is pending. */
  lemma SendDelivers(c: Config, events: seq<Event>, tag: string, r: Route)
    requires OwnRoute(c, tag, r)
    ensures var messages := Messages(c, After(c, events).updated);
            && OnePerEndpoint(messages)
            && Delivered(messages, r) == match Latest(Pending(c, events), tag) case Some(x) => [x] case None => []
  {
    UpdatedIsPending(c, events);
    ReceiveLatest(Pending(c, events), tag);
    MessagesDeliver(c, After(c, events).updated, tag, r);
  }

  lemma NothingDelivered(c: Config, tag: string, r: Route)
    ensures DeliveredBy(Trace(c, []), r) == LatestOfEach(Stretches(c, [], Sending), tag) == []
  {
  }

  lemma TraceMore(c: Config, events: seq<Event>, r: Route)
    requires events != []
    ensures var rest, e := events[..|events| - 1], events[|events| - 1];
            DeliveredBy(Trace(c, events), r)
            == if e.Sending? && c.hasEndpoints
               then DeliveredBy(Trace(c, rest), r) + Delivered(Messages(c, After(c, rest).updated), r)
               else DeliveredBy(Trace(c, rest), r)
  {
    hide Messages, Delivered, DeliveredBy, Topics, After, Next;
    var rest, e := events[..|events| - 1], events[|events| - 1];
    DeliveredMore(Trace(c, rest), Emits(c, After(c, rest), e), r);
    assert DeliveredBy(Trace(c, rest), r) + [] == DeliveredBy(Trace(c, rest), r);
  }

  lemma EachMore(c: Config, events: seq<Event>, tag: string)
    requires events != []
    ensures var rest, e := events[..|events| - 1], events[|events| - 1];
            LatestOfEach(Stretches(c, events, Sending), tag)
            == if e.Sending? && c.hasEndpoints
               then LatestOfEach(Stretches(c, rest, Sending), tag)
                     + match Latest(Pending(c, rest), tag) case Some(x) => [x] case None => []
               else LatestOfEach(Stretches(c, rest, Sending), tag)
  {
    var rest := events[..|events| - 1];
    StretchMore(Stretches(c, rest, Sending), Pending(c, rest), tag);
  }

  /**
   * Over a whole run, what a route delivers is the latest value of each stretch before a send, in order, each exactly
   * once.
   */
  lemma {:induction false} RunDelivers(c: Config, events: seq<Event>, tag: string, r: Route)
    requires OwnRoute(c, tag, r)
    ensures DeliveredBy(Trace(c, events), r) == LatestOfEach(Stretches(c, events, Sending), tag)
  {
    hide Messages, Delivered, DeliveredBy, After, Trace, Pending, Stretches, LatestOfEach, Latest, OwnRoute;
    if events == [] {
      NothingDelivered(c, tag, r);
    } else {
      var rest := events[..|events| - 1];
      RunDelivers(c, rest, tag, r);
      SendDelivers(c, rest, tag, r);
      TraceMore(c, events, r);
      EachMore(c, events, tag);
    }
  }

  /** The points of the stretches before an action, and how one more event extends them. */
  function Found(c: Config, events: seq<Event>, action: Event): seq<Point> {
    Flat(Stretches(c, events, action))
  }

  lemma FoundMore(c: Config, events: seq<Event>)
    requires events != []
    ensures var rest, e := events[..|events| - 1], events[|events| - 1];
            && Found(c, events, Publishing)
               == (if e.Publishing? && c.pubs != [] then Found(c, rest, Publishing) + Pending(c, rest)
                   else Found(c, rest, Publishing))
            && Found(c, events, Sending)
               == (if e.Sending? && c.hasEndpoints then Found(c, rest, Sending) + Pending(c, rest)
                   else Found(c, rest, Sending))
  {
    var rest := events[..|events| - 1];
    StretchMore(Stretches(c, rest, Publishing), Pending(c, rest), "");
    StretchMore(Stretches(c, rest, Sending), Pending(c, rest), "");
  }

  lemma NothingFound(c: Config)
    ensures Found(c, [], Publishing) == Found(c, [], Sending) == []
  {
  }

  lemma NothingLatest(tag: string)
    ensures Latest([], tag) == None
  {
  }

  // ---- publishing over whole runs ----

  /**
   * What should be published under a topic, for each publishing action: the latest value found so far, cast to the
   * topic's type.
   */
  ghost function Shown(c: Config, events: seq<Event>, p: Publication): seq<set<PubValue>>
    requires c.Sound() && p in c.pubs
  {
    if events == [] then []
    else
      var before := Shown(c, events[..|events| - 1], p);
      if events[|events| - 1].Publishing? then before + [Current(c, p, Found(c, events, Publishing))] else before
  }

  ghost function Current(c: Config, p: Publication, points: seq<Point>): set<PubValue>
    requires c.Sound() && p in c.pubs
  {
    match Latest(points, c.tagOf[p.topic])
    case Some(x) => {if c.typeOf[p.topic].boolean then Flag(x != 0.0) else Number(x)}
    case None => {}
  }

  /**
   * A topic carries the latest value that publishing has found for its tag, cast to its type; nothing before the first.
   */
  lemma {:induction false} DataIsTaken(c: Config, events: seq<Event>, p: Publication)
    requires c.Sound() && p in c.pubs && c.tagOf[p.topic] != ""
    ensures p.topic in After(c, events).data
    ensures After(c, events).data[p.topic]
         == match Latest(Found(c, events, Publishing), c.tagOf[p.topic])
            case Some(x) => Some(if c.typeOf[p.topic].boolean then Flag(x != 0.0) else Number(x))
            case None => None
  {
    hide Found, Latest, Receive, Get, Pending;
    if events == [] {
      NothingFound(c);
      NothingLatest(c.tagOf[p.topic]);
    } else {
      var rest, e := events[..|events| - 1], events[|events| - 1];
      var tag := c.tagOf[p.topic];
      DataIsTaken(c, rest, p);
      FoundMore(c, events);
      if e.Publishing? {
        UpdatedIsPending(c, rest);
        ReceiveLatest(Pending(c, rest), tag);
        LatestAppend(Found(c, rest, Publishing), Pending(c, rest), tag);
      }
    }
  }

  /** A topic without a tag never has a value, whatever comes in. */
  lemma {:induction false} UntaggedStaysEmpty(c: Config, events: seq<Event>, p: Publication)
    requires c.Sound() && p in c.pubs && c.tagOf[p.topic] == ""
    ensures p.topic in After(c, events).data && After(c, events).data[p.topic].None?
    ensures forall t :: t in Topics(c.pubs, After(c, events).data) ==> t.topic != p.topic
  {
    if events != [] {
      UntaggedStaysEmpty(c, events[..|events| - 1], p);
    }
    forall t | t in Topics(c.pubs, After(c, events).data)
      ensures t.topic != p.topic
    {
      TopicsPublished(c.pubs, After(c, events).data, t);
    }
  }

  predicate DistinctTopics(pubs: seq<Publication>) {
    forall i, j :: 0 <= i < j < |pubs| ==> pubs[i].topic != pubs[j].topic
  }

  /** Each topic that has a value is published once. */
  lemma {:induction false} EachTopicOnce(pubs: seq<Publication>, data: Data)
    requires DistinctTopics(pubs)
    ensures var topics := Topics(pubs, data);
            forall i, j :: 0 <= i < j < |topics| ==> topics[i].topic != topics[j].topic
  {
    if pubs != [] {
      var n := |pubs| - 1;
      EachTopicOnce(pubs[..n], data);
      var before := Topics(pubs[..n], data);
      forall i | 0 <= i < |before|
        ensures before[i].topic != pubs[n].topic
      {
        TopicsPublished(pubs[..n], data, before[i]);
      }
    }
  }

  lemma PublishShows(c: Config, events: seq<Event>, p: Publication)
    requires c.Sound() && p in c.pubs && c.tagOf[p.topic] != ""
    ensures ValuesUnder(Topics(c.pubs, After(c, events).data), p.topic) == Current(c, p, Found(c, events, Publishing))
  {
    var data := After(c, events).data;
    DataIsTaken(c, events, p);
    forall t: Topic | t.topic == p.topic
      ensures t in Topics(c.pubs, data) <==> data[p.topic] == Some(t.value)
    {
      TopicsPublished(c.pubs, data, t);
    }
    var values, current := ValuesUnder(Topics(c.pubs, data), p.topic), Current(c, p, Found(c, events, Publishing));
    forall v
      ensures v in values <==> v in current
    {
      assert Topic(p.topic, v) in Topics(c.pubs, data) <==> data[p.topic] == Some(v);
    }
  }

  /** Over a whole run, each publishing action shows the latest value that publishing has found so far. */
  lemma {:induction false} RunPublishes(c: Config, events: seq<Event>, p: Publication)
    requires c.Sound() && p in c.pubs && c.tagOf[p.topic] != ""
    ensures PublishedBy(Trace(c, events), p.topic) == Shown(c, events, p)
  {
    if events != [] {
      var rest, e := events[..|events| - 1], events[|events| - 1];
      RunPublishes(c, rest, p);
      PublishedMore(Trace(c, rest), Emits(c, After(c, rest), e), p.topic);
      if e.Publishing? {
        PublishShows(c, events, p);
      }
    }
  }

  // ---- the laws of whole runs ----

  lemma {:induction false} StretchesPartition(c: Config, events: seq<Event>)
    ensures multiset(Heard(events))
         == multiset(Found(c, events, Publishing)) + multiset(Found(c, events, Sending)) + multiset(Pending(c, events))
  {
    hide Found;
    if events == [] {
      NothingFound(c);
    } else {
      StretchesPartition(c, events[..|events| - 1]);
      FoundMore(c, events);
    }
  }

  /** Where only one kind of action is configured, its stretches follow each other without a gap. */
  lemma {:induction false} StretchesJoin(c: Config, events: seq<Event>)
    ensures c.pubs == [] ==> Found(c, events, Sending) + Pending(c, events) == Heard(events)
    ensures !c.hasEndpoints ==> Found(c, events, Publishing) + Pending(c, events) == Heard(events)
  {
    hide Found;
    if events == [] {
      NothingFound(c);
    } else {
      var rest, e := events[..|events| - 1], events[|events| - 1];
      StretchesJoin(c, rest);
      FoundMore(c, events);
      if e.Bus? {
        assert Found(c, rest, Sending) + (Pending(c, rest) + e.points)
          == (Found(c, rest, Sending) + Pending(c, rest)) + e.points;
        assert Found(c, rest, Publishing) + (Pending(c, rest) + e.points)
          == (Found(c, rest, Publishing) + Pending(c, rest)) + e.points;
      }
    }
  }

  /**
   * Conservation. In any interleaving every point received falls into the stretch of exactly one action, or is
   * still pending; each route has delivered the latest value of each of its stretches exactly once and nothing
   * else; and each topic has shown at every publishing action the latest value of all its stretches so far.
   */
  lemma EveryPointOnce(c: Config, events: seq<Event>)
    requires c.Sound()
    ensures multiset(Heard(events))
         == multiset(Found(c, events, Publishing)) + multiset(Found(c, events, Sending)) + multiset(Pending(c, events))
    ensures forall tag, r :: OwnRoute(c, tag, r) ==>
              DeliveredBy(Trace(c, events), r) == LatestOfEach(Stretches(c, events, Sending), tag)
    ensures forall p :: p in c.pubs && c.tagOf[p.topic] != "" ==>
              PublishedBy(Trace(c, events), p.topic) == Shown(c, events, p)
  {
    StretchesPartition(c, events);
    forall tag, r | OwnRoute(c, tag, r)
      ensures DeliveredBy(Trace(c, events), r) == LatestOfEach(Stretches(c, events, Sending), tag)
    {
      RunDelivers(c, events, tag, r);
    }
    forall p | p in c.pubs && c.tagOf[p.topic] != ""
      ensures PublishedBy(Trace(c, events), p.topic) == Shown(c, events, p)
    {
      RunPublishes(c, events, p);
    }
  }

  /**
   * Without publications no latest value is lost: after a send, the last value that a route has delivered is the latest
   * ever received.
   */
  lemma OnlySending(c: Config, events: seq<Event>, tag: string, r: Route)
    requires c.pubs == [] && c.hasEndpoints && OwnRoute(c, tag, r)
    ensures var values := DeliveredBy(Trace(c, events + [Sending]), r);
            match Latest(Heard(events), tag)
            case Some(x) => values != [] && values[|values| - 1] == x
            case None => values == []
  {
    var all := events + [Sending];
    assert all[..|events|] == events;
    RunDelivers(c, all, tag, r);
    LatestOfAll(Stretches(c, all, Sending), tag);
    StretchesJoin(c, all);
    assert Found(c, all, Sending) + [] == Found(c, all, Sending);
  }

  /**
   * Without endpoints, each publishing action republishes for each topic the latest value ever received, cast to its
   * type.
   */
  lemma RepublishesLatest(c: Config, events: seq<Event>, p: Publication)
    requires c.Sound() && p in c.pubs && c.tagOf[p.topic] != "" && !c.hasEndpoints
    ensures var outputs := Emits(c, After(c, events), Publishing);
            |outputs| == 1 && outputs[0].Published?
            && ValuesUnder(outputs[0].topics, p.topic) == Current(c, p, Heard(events))
  {
    var all := events + [Publishing];
    assert all[..|events|] == events;
    PublishShows(c, all, p);
    StretchesJoin(c, all);
    assert Found(c, all, Publishing) + [] == Found(c, all, Publishing);
  }

  lemma {:induction false} PendingBetween(c: Config, events: seq<Event>, between: seq<Event>)
    requires c.pubs != [] && forall i :: 0 <= i < |between| ==> between[i].Bus?
    ensures Pending(c, events + [Publishing] + between) == Heard(between)
  {
    var all := events + [Publishing] + between;
    if between == [] {
      assert all == events + [Publishing] && all[..|all| - 1] == events;
    } else {
      assert all[..|all| - 1] == events + [Publishing] + between[..|between| - 1];
      PendingBetween(c, events, between[..|between| - 1]);
    }
  }

  /**
   * With both configured the two starve each other: what came in before a step's publishing never reaches an
   * endpoint. A send delivers exactly the latest of what came in between the two actions of its own step.
   */
  lemma PublishingStarvesSending(c: Config, events: seq<Event>, between: seq<Event>, tag: string, r: Route)
    requires c.pubs != [] && c.hasEndpoints && OwnRoute(c, tag, r)
    requires forall i :: 0 <= i < |between| ==> between[i].Bus?
    ensures var outputs := Emits(c, After(c, events + [Publishing] + between), Sending);
            && |outputs| == 1 && outputs[0].Sent?
            && Delivered(outputs[0].messages, r)
              == match Latest(Heard(between), tag) case Some(x) => [x] case None => []
  {
    PendingBetween(c, events, between);
    SendDelivers(c, events + [Publishing] + between, tag, r);
  }

  // ---- the module ----

  class IO {
    const config: Config

    var updated: seq<Point>
    var data: Data

    ghost function Now(): State
      reads this
    {
      State(updated, data)
    }

    constructor (config: Config)
      ensures this.config == config && Now() == Initial(config)
    {
      this.config := config;
      updated, data := [], map p | p in config.pubs :: p.topic := None;
    }

    method HandleMsgBusUpdate(points: seq<Point>)
      modifies this`updated
      ensures Now() == Next(config, old(Now()), Bus(points))
    {
      for i := 0 to |points|
        invariant updated == Receive(old(updated), points[..i])
      {
        assert points[..i + 1][..i] == points[..i];
        updated := Set(updated, points[i]);
      }
      assert points[..|points|] == points;
    }

    method ActionPublications()
      modifies this
      ensures updated == [] && data == Refresh(config, old(updated), old(data))
    {
      var keys := data.Keys;
      while keys != {}
        invariant keys <= data.Keys && updated == old(updated)
        invariant data
             == map k | k in old(data) :: if k in keys then old(data)[k]
               else Refreshed(config, updated, k, old(data)[k])
        decreases |keys|
      {
        var k :| k in keys;
        keys := keys - {k};
        if k in config.tagOf && k in config.typeOf {
          var tag := config.tagOf[k];
          if tag != "" && Get(updated, tag).Some? {
            data := data[k := Some(Cast(config.typeOf[k], Get(updated, tag).value))];
          }
        }
      }
      updated := [];
    }

    /** The first half of a step: what is published. */
    method Publish() returns (topics: seq<Topic>)
      modifies this
      ensures Now() == Next(config, old(Now()), Publishing)
      ensures Emits(config, old(Now()), Publishing) == [Published(topics)]
    {
      if config.pubs != [] {
        ActionPublications();
      }
      topics := [];
      for i := 0 to |config.pubs|
        invariant topics == Topics(config.pubs[..i], data)
      {
        assert config.pubs[..i + 1][..i] == config.pubs[..i];
        var k := config.pubs[i].topic;
        if k in data && data[k].Some? {
          topics := topics + [Topic(k, data[k].value)];
        }
      }
      assert config.pubs[..|config.pubs|] == config.pubs;
    }

    method ActionEndpointsSend() returns (messages: seq<Message>)
      modifies this`updated
      ensures updated == [] && messages == Messages(config, old(updated))
    {
      messages := [];
      for i := 0 to |updated|
        invariant updated == old(updated) && messages == Messages(config, updated[..i])
      {
        assert updated[..i + 1][..i] == updated[..i];
        var p := updated[i];
        if p.tag in config.routes {
          var routes := config.routes[p.tag];
          ghost var before := messages;
          for j := 0 to |routes|
            invariant updated == old(updated) && messages == PostAll(before, routes[..j], p.value)
          {
            assert routes[..j + 1][..j] == routes[..j];
            messages := Post(messages, routes[j].endpoint, Point(routes[j].topic, p.value));
          }
          assert routes[..|routes|] == routes;
        }
      }
      assert updated[..|updated|] == updated;
      updated := [];
    }

    /** The second half of a step: what is sent. */
    method Send() returns (messages: seq<Message>)
      modifies this`updated
      ensures Now() == Next(config, old(Now()), Sending)
      ensures Emits(config, old(Now()), Sending) == if config.hasEndpoints then [Sent(messages)] else []
    {
      if config.hasEndpoints {
        messages := ActionEndpointsSend();
      } else {
        messages := [];
      }
    }
  }
}
