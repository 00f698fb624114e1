/** The mock transport used by the test suites: mutable route objects with call logs and side-effect iterators. */
module MockRouter {
  import opened Wrappers
  import RC = RetryClient

  /** What requests are matched on; `httpx2.URL` normalises the parts. */
  datatype Key = Key(verb: string, scheme: string, host: string, port: Option<int>, path: string)

  datatype Request = Request(key: Key, body: string)

  datatype Exception = Timeout | Transport | Other

  datatype Item = Respond(status: nat, content: RC.Content<string>) | Throw(exception: Exception)

  datatype SideEffect =
    | NoEffect
    | Raises(exception: Exception)
    | Calls(f: Request -> Item)
    | Items(items: seq<Item>)

  /** A live iterator keeps the list it was made from. */
  datatype Iterator = NotStarted | At(items: seq<Item>, next: nat)

  datatype Reply = Produced(item: Item) | Exhausted(calls: nat) | Unconfigured | NoRoute

  datatype RouteState = RouteState(returnValue: Option<Item>, sideEffect: SideEffect, calls: seq<Request>, iter: Iterator)

  /** `_resolve_response`, once the call has been recorded in `s`. */
  function Resolve(s: RouteState, request: Request): (Reply, Iterator) {
    match s.sideEffect
    case NoEffect => (if s.returnValue.Some? then Produced(s.returnValue.value) else Unconfigured, s.iter)
    case Raises(e) => (Produced(Throw(e)), s.iter)
    case Calls(f) => (Produced(f(request)), s.iter)
    case Items(items) =>
      var it := if s.iter.NotStarted? then At(items, 0) else s.iter;
      if it.next < |it.items| then (Produced(it.items[it.next]), it.(next := it.next + 1))
      else (Exhausted(|s.calls|), it)
  }

  /** One request: recorded first, then resolved. */
  function Answer(s: RouteState, request: Request): (Reply, RouteState) {
    var recorded := s.(calls := s.calls + [request]);
    var (reply, iter) := Resolve(recorded, request);
    (reply, recorded.(iter := iter))
  }

  function AfterReset(s: RouteState): RouteState {
    s.(calls := [], iter := NotStarted)
  }

  lemma ResetKeepsConfiguration(s: RouteState)
    ensures AfterReset(s) == RouteState(s.returnValue, s.sideEffect, [], NotStarted)
  {
  }

  /** What a configuration promises for a request; the replies of a list depend on the calls before. */
  ghost predicate AsConfigured(reply: Reply, returnValue: Option<Item>, sideEffect: SideEffect, request: Request) {
    match sideEffect
    case NoEffect => reply == (match returnValue case Some(v) => Produced(v) case None => Unconfigured)
    case Raises(e) => reply == Produced(Throw(e))
    case Calls(f) => reply == Produced(f(request))
    case Items(_) => reply.Produced? || reply.Exhausted?
  }

  /** The replies to a sequence of requests. */
  function AnswerAll(s: RouteState, requests: seq<Request>): seq<Reply>
    decreases |requests|
  {
    if requests == [] then []
    else [Answer(s, requests[0]).0] + AnswerAll(Answer(s, requests[0]).1, requests[1..])
  }

  // ----- routes and the router as objects -----

  class MockRoute {
    var returnValue: Option<Item>
    var sideEffect: SideEffect
    var calls: seq<Request>
    var iter: Iterator
    ghost var hits: seq<Request>  // every request since the route was made
    ghost var mark: nat           // how many of them came before the last reset

    ghost function State(): RouteState
      reads this
    {
      RouteState(returnValue, sideEffect, calls, iter)
    }

    /** The log is what has been received since the last reset. */
    ghost predicate Valid()
      reads this
    {
      mark <= |hits| && calls == hits[mark..]
    }

    constructor ()
      ensures Valid() && hits == [] && State() == RouteState(None, NoEffect, [], NotStarted)
    {
      returnValue, sideEffect, calls, iter := None, NoEffect, [], NotStarted;
      hits, mark := [], 0;
    }

    method Reset()
      requires Valid()
      modifies this
      ensures Valid() && State() == AfterReset(old(State())) && hits == old(hits)
      ensures calls == [] && iter == NotStarted
      ensures returnValue == old(returnValue) && sideEffect == old(sideEffect)
    {
      calls, iter := [], NotStarted;
      mark := |hits|;
    }

    method Receive(request: Request) returns (reply: Reply)
      requires Valid()
      modifies this
      ensures Valid() && (reply, State()) == Answer(old(State()), request)
      ensures hits == old(hits) + [request] && calls == old(calls) + [request]
      ensures returnValue == old(returnValue) && sideEffect == old(sideEffect)
      ensures AsConfigured(reply, old(returnValue), old(sideEffect), request)
    {
      calls := calls + [request];
      hits := hits + [request];
      match sideEffect
      case NoEffect =>
        reply := if returnValue.Some? then Produced(returnValue.value) else Unconfigured;
      case Raises(e) =>
        reply := Produced(Throw(e));
      case Calls(f) =>
        reply := Produced(f(request));
      case Items(items) =>
        if iter.NotStarted? {
          iter := At(items, 0);
        }
        if iter.next < |iter.items| {
          reply := Produced(iter.items[iter.next]);
          iter := At(iter.items, iter.next + 1);
        } else {
          reply := Exhausted(|calls|);
        }
    }
  }

  /** The requests of `history` with this key, in order. */
  function Projection(history: seq<Request>, key: Key): seq<Request>
    decreases |history|
  {
    if history == [] then []
    else
      var last := history[|history| - 1];
      Projection(history[..|history| - 1], key) + (if last.key == key then [last] else [])
  }

  class Router {
    var routes: map<Key, MockRoute>
    ghost var history: seq<Request>     // every request that matched a route
    ghost var since: map<Key, nat>      // where in it each live route was registered

    static lemma NoShareYet(key: Key)
      ensures Projection([], key) == []
    {
    }

    static lemma ShareGrows(history: seq<Request>, from: nat, key: Key, request: Request)
      requires from <= |history|
      ensures Projection((history + [request])[from..], key)
           == Projection(history[from..], key) + (if request.key == key then [request] else [])
    {
      var before := history[from..];
      assert (history + [request])[from..] == before + [request];
      assert (before + [request])[..|before|] == before;
    }

    /** Routes are distinct objects, and each has received exactly its share of the history. */
    ghost predicate Valid()
      reads this, routes.Values
    {
      && since.Keys == routes.Keys
      && (forall k :: k in routes ==>
            && routes[k] in routes.Values
            && since[k] <= |history|
            && routes[k].Valid()
            && routes[k].hits == Projection(history[since[k]..], k))
      && (forall j, k :: j in routes && k in routes && j != k ==> routes[j] != routes[k])
    }

    constructor ()
      ensures Valid() && routes == map[] && history == []
    {
      routes, history, since := map[], [], map[];
    }

    /** A new route joins with an empty share of the history. */
    method Register(key: Key, made: MockRoute)
      requires Valid() && key !in routes && made !in routes.Values
      requires made.Valid() && made.hits == []
      modifies this`routes, this`since
      ensures Valid() && routes == old(routes)[key := made]
    {
      hide Projection;
      NoShareYet(key);
      assert history[|history|..] == [];
      routes, since := routes[key := made], since[key := |history|];
      assert forall k :: k in old(routes) ==> old(routes)[k] in old(routes.Values);
    }

    /** `route(method, url)`: one object per key, made on first use. */
    method Route(key: Key) returns (route: MockRoute)
      requires Valid()
      modifies this
      ensures Valid() && key in routes && route == routes[key] && history == old(history)
      ensures key in old(routes) ==> routes == old(routes)
      ensures key !in old(routes) ==> fresh(route) && routes == old(routes)[key := route]
                                      && route.State() == RouteState(None, NoEffect, [], NotStarted)
    {
      hide Projection;
      if key !in routes {
        var made := new MockRoute();
        Register(key, made);
      }
      route := routes[key];
    }

    /** One iteration of `reset`. */
    method ResetRoute(key: Key)
      requires Valid() && key in routes
      modifies routes[key]
      ensures Valid() && routes[key].State() == AfterReset(old(routes[key].State()))
      ensures forall k :: k in routes && k != key ==> routes[k].State() == old(routes[k].State())
    {
      hide Projection, AfterReset;
      routes[key].Reset();
    }

    /** `reset`: every route's log and iterator, nothing else. */
    method Reset()
      requires Valid()
      modifies routes.Values
      ensures Valid()
      ensures forall k :: k in routes ==> routes[k].State() == AfterReset(old(routes[k].State()))
      ensures forall k :: k in routes ==>
                routes[k].State() == RouteState(old(routes[k].returnValue), old(routes[k].sideEffect), [], NotStarted)
    {
      hide Valid, AfterReset;
      var todo := routes.Keys;
      while todo != {}
        invariant Valid() && todo <= routes.Keys
        invariant forall k :: k in routes ==>
                    routes[k].State() == (if k in todo then old(routes[k].State()) else AfterReset(old(routes[k].State())))
      {
        var key :| key in todo;
        ResetRoute(key);
        todo := todo - {key};
      }
      forall k | k in routes
        ensures routes[k].State() == RouteState(old(routes[k].returnValue), old(routes[k].sideEffect), [], NotStarted)
      {
        ResetKeepsConfiguration(old(routes[k].State()));
      }
    }

    /** `clear`: registrations are forgotten; route objects held elsewhere are not touched. */
    method Clear()
      requires Valid()
      modifies this
      ensures Valid() && routes == map[] && history == old(history)
    {
      routes, since := map[], map[];
    }

    /** `_handle`: a matched request is recorded in its own route only; an unmatched one changes nothing. */
    method Handle(request: Request) returns (reply: Reply)
      requires Valid()
      modifies this`history, if request.key in routes then {routes[request.key]} else {}
      ensures Valid()
      ensures request.key !in routes ==> reply == NoRoute && history == old(history)
      ensures request.key in routes ==>
                (reply, routes[request.key].State()) == Answer(old(routes[request.key].State()), request)
                && history == old(history) + [request]
                && routes[request.key].calls == old(routes[request.key].calls) + [request]
                && AsConfigured(reply, old(routes[request.key].returnValue), old(routes[request.key].sideEffect), request)
    {
      if request.key !in routes {
        return NoRoute;
      }
      hide Projection, Answer, AsConfigured;
      reply := Deliver(request);
      Remember(request);
    }

    /** Every route has its share of the history followed by `request`. */
    ghost predicate HasReceived(request: Request)
      reads this, routes.Values
    {
      && since.Keys == routes.Keys
      && (forall k :: k in routes ==>
            && routes[k] in routes.Values
            && since[k] <= |history|
            && routes[k].Valid()
            && routes[k].hits == Projection(history[since[k]..], k) + (if request.key == k then [request] else []))
      && (forall j, k :: j in routes && k in routes && j != k ==> routes[j] != routes[k])
    }

    ghost method Remember(request: Request)
      requires HasReceived(request)
      modifies this`history
      ensures Valid() && history == old(history) + [request]
    {
      hide Projection;
      forall k | k in routes ensures Projection((history + [request])[since[k]..], k) == routes[k].hits {
        ShareGrows(history, since[k], k, request);
      }
      history := history + [request];
    }

    /** The matched route receives the request; the others keep their share. */
    method Deliver(request: Request) returns (reply: Reply)
      requires Valid() && request.key in routes
      modifies routes[request.key]
      ensures (reply, routes[request.key].State()) == Answer(old(routes[request.key].State()), request)
      ensures HasReceived(request)
      ensures routes[request.key].calls == old(routes[request.key].calls) + [request]
      ensures AsConfigured(reply, old(routes[request.key].returnValue), old(routes[request.key].sideEffect), request)
    {
      hide Projection, Answer, AsConfigured;
      reply := routes[request.key].Receive(request);
    }

    /** A live route's log is its share of the matched history since it was registered, from its last reset on. */
    lemma LogIsProjection(key: Key)
      requires Valid() && key in routes
      ensures var share := Projection(history[since[key]..], key);
        && routes[key].mark <= |share| && routes[key].calls == share[routes[key].mark..]
        && |routes[key].calls| <= |history|
        && forall i :: 0 <= i < |routes[key].calls| ==> routes[key].calls[i].key == key
    {
      ProjectionHasTheKey(history[since[key]..], key);
    }
  }

  lemma {:induction false} ProjectionHasTheKey(history: seq<Request>, key: Key)
    ensures forall i :: 0 <= i < |Projection(history, key)| ==> Projection(history, key)[i].key == key
    ensures |Projection(history, key)| <= |history|
    decreases |history|
  {
    if history != [] {
      ProjectionHasTheKey(history[..|history| - 1], key);
    }
  }

  // ----- replaying a list -----

  /**
   * Every call of a route gets what is configured, whatever the calls before it: a side
   * effect comes before the return value, and with neither the call fails.
   */
  lemma {:induction false} ConfiguredReplies(s: RouteState, requests: seq<Request>)
    ensures |AnswerAll(s, requests)| == |requests|
    ensures forall i :: 0 <= i < |requests| ==>
              AsConfigured(AnswerAll(s, requests)[i], s.returnValue, s.sideEffect, requests[i])
    decreases |requests|
  {
    if requests != [] {
      var rest := Answer(s, requests[0]).1;
      ConfiguredReplies(rest, requests[1..]);
      assert rest.returnValue == s.returnValue && rest.sideEffect == s.sideEffect;
      assert forall i :: 0 < i < |requests| ==> requests[i] == requests[1..][i - 1];
    }
  }

  /** What the `i`-th call of a list side effect gets. */
  function ListReply(items: seq<Item>, i: nat): Reply {
    if i < |items| then Produced(items[i]) else Exhausted(i + 1)
  }

  /** What a list side effect still holds: a live iterator goes on with its own list, whatever is configured since. */
  function Remaining(s: RouteState): seq<Item>
    requires s.sideEffect.Items? && (s.iter.At? ==> s.iter.next <= |s.iter.items|)
  {
    if s.iter.NotStarted? then s.sideEffect.items else s.iter.items[s.iter.next..]
  }

  /** From any point on the remaining items are given one by one, and an assertion error from then on. */
  lemma {:induction false} RemainingIsReplayed(s: RouteState, requests: seq<Request>)
    requires s.sideEffect.Items? && (s.iter.At? ==> s.iter.next <= |s.iter.items|)
    ensures |AnswerAll(s, requests)| == |requests|
    ensures forall i :: 0 <= i < |requests| ==>
              AnswerAll(s, requests)[i] ==
              if i < |Remaining(s)| then Produced(Remaining(s)[i]) else Exhausted(|s.calls| + i + 1)
    decreases |requests|
  {
    if requests != [] {
      RemainingIsReplayed(Answer(s, requests[0]).1, requests[1..]);
    }
  }

  /** The iterator of a list side effect is where the log says, which every reset makes true. */
  ghost predicate InStep(s: RouteState, items: seq<Item>) {
    && s.sideEffect == Items(items)
    && (s.iter == NotStarted ==> s.calls == [])
    && (s.iter.At? ==> s.iter.items == items
                       && s.iter.next == (if |s.calls| < |items| then |s.calls| else |items|))
  }

  /** After any reset, call `i` of a list side effect gets item `i`, and an assertion error from then on. */
  lemma {:induction false} ListIsReplayed(s: RouteState, items: seq<Item>, requests: seq<Request>)
    requires InStep(s, items)
    ensures |AnswerAll(s, requests)| == |requests|
    ensures forall i :: 0 <= i < |requests| ==> AnswerAll(s, requests)[i] == ListReply(items, |s.calls| + i)
    decreases |requests|
  {
    if requests != [] {
      ListIsReplayed(Answer(s, requests[0]).1, items, requests[1..]);
    }
  }

  lemma ResetPutsInStep(s: RouteState, items: seq<Item>)
    requires s.sideEffect == Items(items)
    ensures InStep(AfterReset(s), items)
  {
  }

  // ----- driven by the retrying client -----

  /** What the client makes of a reply; an assertion error is not a transport error. */
  function Outcome(reply: Reply): RC.Attempt<string> {
    match reply
    case Produced(Respond(status, content)) => RC.Answered(status, content)
    case Produced(Throw(Timeout)) => RC.TimedOut
    case Produced(Throw(Transport)) => RC.Unreachable
    case _ => RC.Foreign
  }

  function Script(items: seq<Item>): nat -> RC.Attempt<string> {
    (i: nat) => Outcome(ListReply(items, i))
  }

  /** The route's log after the client's attempts. */
  function LogAfter(s: RouteState, request: Request, attempts: nat): seq<Request>
    decreases attempts
  {
    if attempts == 0 then s.calls else LogAfter(Answer(s, request).1, request, attempts - 1)
  }

  lemma {:induction false} LogCountsAttempts(s: RouteState, request: Request, attempts: nat)
    ensures |LogAfter(s, request, attempts)| == |s.calls| + attempts
    decreases attempts
  {
    if attempts > 0 {
      LogCountsAttempts(Answer(s, request).1, request, attempts - 1);
    }
  }

  /** The route after `n` calls with the same request, and what the client sees of each call. */
  function StateAfter(s: RouteState, request: Request, n: nat): RouteState {
    if n == 0 then s else Answer(StateAfter(s, request, n - 1), request).1
  }

  function Seen(s: RouteState, request: Request): nat -> RC.Attempt<string> {
    (i: nat) => Outcome(Answer(StateAfter(s, request, i), request).0)
  }

  lemma {:induction false} ConfigurationStays(s: RouteState, request: Request, n: nat)
    ensures StateAfter(s, request, n).sideEffect == s.sideEffect && StateAfter(s, request, n).returnValue == s.returnValue
    ensures |StateAfter(s, request, n).calls| == |s.calls| + n
  {
    if n > 0 {
      ConfigurationStays(s, request, n - 1);
    }
  }

  /** The retry loop against a route that always looks the same to the client. */
  lemma SameReplyEveryTime(s: RouteState, request: Request, attempt: RC.Attempt<string>, model: RC.Model, budget: nat)
    requires budget > 0 && forall i: nat :: Seen(s, request)(i) == attempt
    ensures var n := RC.Attempts(Seen(s, request), model, 0, budget);
      && n == (if RC.Outage(attempt) then budget else 1)
      && |StateAfter(s, request, n).calls| == |s.calls| + n
      && Seen(s, request)(n - 1) == attempt
  {
    RC.RetriableIff(attempt, model);
    RC.AttemptsIsFirstDecisive(Seen(s, request), model, budget, if RC.Outage(attempt) then budget else 0);
    ConfigurationStays(s, request, RC.Attempts(Seen(s, request), model, 0, budget));
  }

  /**
   * The retry loop against a route with a fixed exception: a timeout or a transport error
   * uses up the whole budget, any other exception ends the call at once; the route has
   * recorded as many calls as there were attempts.
   */
  lemma FixedExceptionIsRetried(s: RouteState, e: Exception, request: Request, model: RC.Model, budget: nat)
    requires budget > 0 && s.sideEffect == Raises(e)
    ensures var n := RC.Attempts(Seen(s, request), model, 0, budget);
      && n == (if e == Other then 1 else budget)
      && |StateAfter(s, request, n).calls| == |s.calls| + n
      && RC.Once(Seen(s, request)(n - 1), model) == Err(match e
                                                         case Timeout => RC.ServiceTimeout
                                                         case Transport => RC.ServiceUnavailable
                                                         case Other => RC.ForeignError)
  {
    forall i: nat ensures Seen(s, request)(i) == Outcome(Produced(Throw(e))) {
      ConfigurationStays(s, request, i);
    }
    SameReplyEveryTime(s, request, Outcome(Produced(Throw(e))), model, budget);
  }

  /** A route with a canned answer and no side effect: tried again while the answer is 500 or above, else taken at once. */
  lemma CannedAnswerIsTaken(s: RouteState, status: nat, content: RC.Content<string>, request: Request,
                            model: RC.Model, budget: nat)
    requires budget > 0 && s.sideEffect == NoEffect && s.returnValue == Some(Respond(status, content))
    ensures var n := RC.Attempts(Seen(s, request), model, 0, budget);
      && n == (if status >= 500 then budget else 1)
      && |StateAfter(s, request, n).calls| == |s.calls| + n
      && Seen(s, request)(n - 1) == RC.Answered(status, content)
  {
    forall i: nat ensures Seen(s, request)(i) == RC.Answered(status, content) {
      ConfigurationStays(s, request, i);
    }
    SameReplyEveryTime(s, request, RC.Answered(status, content), model, budget);
  }

  /**
   * The retry loop against a list of retriable failures: as many attempts as the budget
   * allows when the list is long enough; otherwise one more than the list has, ending in
   * the mock's assertion error, which is not retried.
   */
  lemma RetryConsumesList(s: RouteState, items: seq<Item>, request: Request, model: RC.Model, budget: nat)
    requires budget > 0 && s.sideEffect == Items(items)
    requires forall i :: 0 <= i < |items| ==> RC.Retriable(Outcome(Produced(items[i])), model)
    ensures var n := RC.Attempts(Script(items), model, 0, budget);
      && n == (if |items| < budget then |items| + 1 else budget)
      && |LogAfter(AfterReset(s), request, n)| == n
      && AnswerAll(AfterReset(s), seq(n, _ => request)) == seq(n, i requires 0 <= i => ListReply(items, i))
      && (|items| < budget ==> RC.Once(Script(items)(n - 1), model) == Err(RC.ForeignError))
  {
    var n := RC.Attempts(Script(items), model, 0, budget);
    RC.AttemptsIsFirstDecisive(Script(items), model, budget, |items|);
    LogCountsAttempts(AfterReset(s), request, n);
    ResetPutsInStep(s, items);
    ListIsReplayed(AfterReset(s), items, seq(n, _ => request));
  }
}
