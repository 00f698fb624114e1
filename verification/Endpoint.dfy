/** The declarative endpoint compiler: a method signature and a path template become a spec, then each call a request. */
module Endpoint {
  import opened Wrappers
  import opened PercentEncoding
  import opened PathTemplate
  import PU = PartialUpdate
  import RC = RetryClient

  /** A declared parameter; `isModel` says that its annotation is a Pydantic model class. */
  datatype Param = Param(name: string, isModel: bool)

  datatype Signature = Signature(params: seq<Param>, hintsResolve: bool, hasReturn: bool)

  /** Python rejects a signature with a repeated parameter name. */
  ghost predicate DistinctNames(params: seq<Param>) {
    forall i, j :: 0 <= i < j < |params| ==> params[i].name != params[j].name
  }

  datatype Spec = Spec(
    verb: RC.Method,
    template: string,
    pathParams: seq<string>,
    bodyParam: Option<string>,
    queryParams: seq<string>,
    partialUpdate: bool)

  datatype SpecError = UnsupportedMethod | UnresolvedHints | MissingReturn | UndeclaredPathParam | ManyBodies
                     | MissingBody | UnexpectedBody

  const BODY_METHODS: set<RC.Method> := {RC.POST, RC.PUT, RC.PATCH}

  predicate OnWire(name: string) {
    name != "self" && name != "ctx"
  }

  /** The names of the parameters that satisfy `keep`, in declaration order. */
  function Select(params: seq<Param>, keep: Param -> bool): seq<string> {
    if params == [] then []
    else (if keep(params[0]) then [params[0].name] else []) + Select(params[1..], keep)
  }

  function BodyParams(params: seq<Param>, path: seq<string>): seq<string> {
    Select(params, (p: Param) => OnWire(p.name) && p.name !in path && p.isModel)
  }

  function QueryParams(params: seq<Param>, path: seq<string>, body: Option<string>): seq<string> {
    Select(params, (p: Param) => OnWire(p.name) && p.name !in path && body != Some(p.name))
  }

  predicate Declared(params: seq<Param>, name: string) {
    exists i :: 0 <= i < |params| && params[i].name == name
  }

  /** `_build_spec`; an unsupported HTTP method is `None`. */
  function BuildSpec(verb: Option<RC.Method>, template: string, sig: Signature): Result<Spec, SpecError> {
    if verb.None? then Err(UnsupportedMethod)
    else if !sig.hintsResolve then Err(UnresolvedHints)
    else if !sig.hasReturn then Err(MissingReturn)
    else
      var path := FindAll(template);
      if exists i :: 0 <= i < |path| && !(OnWire(path[i]) && Declared(sig.params, path[i])) then Err(UndeclaredPathParam)
      else
        var bodies := BodyParams(sig.params, path);
        if |bodies| > 1 then Err(ManyBodies)
        else if verb.value in BODY_METHODS && bodies == [] then Err(MissingBody)
        else if verb.value !in BODY_METHODS && bodies != [] then Err(UnexpectedBody)
        else
          var body := if bodies == [] then None else Some(bodies[0]);
          Ok(Spec(verb.value, template, path, body, QueryParams(sig.params, path, body), verb.value == RC.PATCH))
  }

  lemma {:induction false} SelectMembers(params: seq<Param>, keep: Param -> bool)
    ensures forall name :: name in Select(params, keep) <==>
              exists i :: 0 <= i < |params| && params[i].name == name && keep(params[i])
  {
    if params != [] {
      SelectMembers(params[1..], keep);
      forall name ensures name in Select(params, keep) <==>
                exists i :: 0 <= i < |params| && params[i].name == name && keep(params[i])
      {
        if i :| 0 <= i < |params| && params[i].name == name && keep(params[i]) {
          assert i > 0 ==> params[1..][i - 1] == params[i];
        }
        if i :| 0 <= i < |params[1..]| && params[1..][i].name == name && keep(params[1..][i]) {
          assert params[i + 1] == params[1..][i];
        }
      }
    }
  }

  lemma {:induction false} SelectIsDistinct(params: seq<Param>, keep: Param -> bool)
    requires DistinctNames(params)
    ensures forall i, j :: 0 <= i < j < |Select(params, keep)| ==> Select(params, keep)[i] != Select(params, keep)[j]
  {
    if params != [] {
      SelectIsDistinct(params[1..], keep);
      SelectMembers(params[1..], keep);
      var rest := Select(params[1..], keep);
      forall j | 0 <= j < |rest| ensures rest[j] != params[0].name {
        assert rest[j] in rest;
      }
    }
  }

  /** A spec keeps the declared method and template; only PATCH sends partial updates; bodies go with POST, PUT and PATCH. */
  lemma SpecIsAsDeclared(m: RC.Method, template: string, sig: Signature)
    requires BuildSpec(Some(m), template, sig).Ok?
    ensures var spec := BuildSpec(Some(m), template, sig).value;
      && spec.verb == m && spec.template == template && spec.pathParams == FindAll(template)
      && (spec.partialUpdate <==> m == RC.PATCH)
      && (spec.bodyParam.Some? <==> m in {RC.POST, RC.PUT, RC.PATCH})
  {
  }

  ghost predicate InPath(spec: Spec, name: string) { name in spec.pathParams }
  ghost predicate InBody(spec: Spec, name: string) { spec.bodyParam == Some(name) }
  ghost predicate InQuery(spec: Spec, name: string) { name in spec.queryParams }

  /**
   * Every declared name other than `self` and `ctx` is in exactly one of the path, the
   * body and the query, and nothing else is; a body is there iff the method carries one.
   */
  lemma SpecPartitionsParameters(verb: Option<RC.Method>, template: string, sig: Signature)
    requires DistinctNames(sig.params) && BuildSpec(verb, template, sig).Ok?
    ensures var spec := BuildSpec(verb, template, sig).value;
      && (forall name :: Declared(sig.params, name) && OnWire(name) <==>
                         InPath(spec, name) || InBody(spec, name) || InQuery(spec, name))
      && (forall name :: !(InPath(spec, name) && InBody(spec, name)) && !(InPath(spec, name) && InQuery(spec, name))
                         && !(InBody(spec, name) && InQuery(spec, name)))
      && (spec.bodyParam.Some? <==> spec.verb in BODY_METHODS)
      && (forall i, j :: 0 <= i < j < |spec.queryParams| ==> spec.queryParams[i] != spec.queryParams[j])
  {
    var spec := BuildSpec(verb, template, sig).value;
    var path := spec.pathParams;
    var isBody := (p: Param) => OnWire(p.name) && p.name !in path && p.isModel;
    var isQuery := (p: Param) => OnWire(p.name) && p.name !in path && spec.bodyParam != Some(p.name);
    var bodies := BodyParams(sig.params, path);
    assert bodies == Select(sig.params, isBody);
    assert spec.queryParams == Select(sig.params, isQuery);
    SelectMembers(sig.params, isBody);
    SelectMembers(sig.params, isQuery);
    SelectIsDistinct(sig.params, isQuery);
    assert spec.bodyParam.Some? ==> spec.bodyParam.value in bodies;
    forall name | Declared(sig.params, name) && OnWire(name)
      ensures InPath(spec, name) || InBody(spec, name) || InQuery(spec, name)
    {
      var i :| 0 <= i < |sig.params| && sig.params[i].name == name;
      assert isQuery(sig.params[i]) || InPath(spec, name) || InBody(spec, name);
    }
  }

  /** A parameter that can be the body: sent, not in the path, and annotated with a model. */
  ghost predicate IsBody(params: seq<Param>, path: seq<string>, i: nat)
    requires i < |params|
  {
    var p := params[i];
    p.name != "self" && p.name != "ctx" && p.name !in path && p.isModel
  }

  ghost predicate NoBody(params: seq<Param>, path: seq<string>) {
    forall i :: 0 <= i < |params| ==> !IsBody(params, path, i)
  }

  ghost predicate OnlyBody(params: seq<Param>, path: seq<string>, i: nat)
    requires i < |params|
  {
    IsBody(params, path, i) && forall j :: 0 <= j < |params| && j != i ==> !IsBody(params, path, j)
  }

  lemma {:induction false} BodiesByCount(params: seq<Param>, path: seq<string>)
    ensures BodyParams(params, path) == [] <==> NoBody(params, path)
    ensures forall i :: 0 <= i < |params| && OnlyBody(params, path, i) ==> BodyParams(params, path) == [params[i].name]
    ensures |BodyParams(params, path)| == 1 ==> exists i :: 0 <= i < |params| && OnlyBody(params, path, i)
  {
    if params != [] {
      var rest := params[1..];
      BodiesByCount(rest, path);
      FirstBody(params, path);
      hide BodyParams;
      NoneFromSecond(params, path);
      forall i | 0 < i < |params|
        ensures OnlyBody(params, path, i) <==> !IsBody(params, path, 0) && OnlyBody(rest, path, i - 1)
      {
        OnlyFromSecond(params, path, i);
      }
      hide IsBody, OnlyBody, NoBody;
      if |BodyParams(params, path)| == 1 && !IsBody(params, path, 0) {
        var i :| 0 <= i < |rest| && OnlyBody(rest, path, i);
        assert OnlyBody(params, path, i + 1);
      }
    }
  }

  lemma NoneFromSecond(params: seq<Param>, path: seq<string>)
    requires params != []
    ensures NoBody(params, path) <==> !IsBody(params, path, 0) && NoBody(params[1..], path)
    ensures OnlyBody(params, path, 0) <==> IsBody(params, path, 0) && NoBody(params[1..], path)
  {
    var rest := params[1..];
    assert forall j :: 0 < j < |params| ==> (IsBody(params, path, j) <==> IsBody(rest, path, j - 1));
    assert forall j :: 0 <= j < |rest| ==> (IsBody(rest, path, j) <==> IsBody(params, path, j + 1));
  }

  lemma OnlyFromSecond(params: seq<Param>, path: seq<string>, i: nat)
    requires 0 < i < |params|
    ensures OnlyBody(params, path, i) <==> !IsBody(params, path, 0) && OnlyBody(params[1..], path, i - 1)
  {
    var rest := params[1..];
    assert forall j :: 0 < j < |params| ==> (IsBody(params, path, j) <==> IsBody(rest, path, j - 1));
    if !IsBody(params, path, 0) && OnlyBody(rest, path, i - 1) {
      forall j | 0 <= j < |params| && j != i ensures !IsBody(params, path, j) {
        assert j > 0 ==> !IsBody(rest, path, j - 1);
      }
    }
    if OnlyBody(params, path, i) {
      forall j | 0 <= j < |rest| && j != i - 1 ensures !IsBody(rest, path, j) {
        assert !IsBody(params, path, j + 1);
      }
    }
  }

  lemma FirstBody(params: seq<Param>, path: seq<string>)
    requires params != []
    ensures BodyParams(params, path) ==
            (if IsBody(params, path, 0) then [params[0].name] else []) + BodyParams(params[1..], path)
  {
  }

  /**
   * A declaration is accepted iff it names a supported method, is fully annotated, declares
   * every placeholder, and has exactly one body candidate when the method carries a body
   * and none when it does not.
   */
  lemma SpecAcceptedIff(verb: Option<RC.Method>, template: string, sig: Signature)
    ensures BuildSpec(verb, template, sig).Ok? <==>
            && verb.Some? && sig.hintsResolve && sig.hasReturn
            && (forall i :: 0 <= i < |FindAll(template)| ==>
                  OnWire(FindAll(template)[i]) && Declared(sig.params, FindAll(template)[i]))
            && (if verb.value in {RC.POST, RC.PUT, RC.PATCH}
                then exists i :: 0 <= i < |sig.params| && OnlyBody(sig.params, FindAll(template), i)
                else NoBody(sig.params, FindAll(template)))
    ensures BuildSpec(verb, template, sig).Ok? ==>
              forall i :: 0 <= i < |sig.params| && OnlyBody(sig.params, FindAll(template), i) ==>
                BuildSpec(verb, template, sig).value.bodyParam == Some(sig.params[i].name)
  {
    BodiesByCount(sig.params, FindAll(template));
    hide BodyParams, FindAll, OnlyBody, NoBody;
  }

  // ----- one call -----

  /** A bound argument: `text` is `str(value)`; a model also has the payload it dumps. */
  datatype Arg = NoneArg | Plain(text: Text) | ModelArg(text: Text, payload: PU.Payload<string>)

  datatype Json = NoJson | JsonObject(fields: map<string, PU.Value>) | JsonOther(arg: Arg)

  datatype Wire = Wire(verb: RC.Method, path: string, json: Json, query: map<string, Arg>)

  datatype CallError = MissingKey(name: string) | NonePathParam(name: string) | Unencodable(name: string) | BadTemplate

  /** `None` has no text to put into a path. */
  function Texts(bound: map<string, Arg>, names: seq<string>): map<string, Text> {
    map name | name in bound && name in names && !bound[name].NoneArg? :: bound[name].text
  }

  function Body(spec: Spec, bound: map<string, Arg>): Json {
    if spec.bodyParam.None? || spec.bodyParam.value !in bound then NoJson
    else match bound[spec.bodyParam.value]
         case NoneArg => NoJson
         case ModelArg(_, payload) => JsonObject(PU.Dump(payload, spec.partialUpdate))
         case Plain(text) => JsonOther(Plain(text))
  }

  function Picked(bound: map<string, Arg>, names: seq<string>): map<string, Arg> {
    map name | name in bound && name in names && !bound[name].NoneArg? :: bound[name]
  }

  function Query(spec: Spec, bound: map<string, Arg>): map<string, Arg> {
    Picked(bound, spec.queryParams)
  }

  ghost predicate NoRepeats(names: seq<string>) {
    forall i, j :: 0 <= i < j < |names| ==> names[i] != names[j]
  }

  ghost predicate QuotableArg(bound: map<string, Arg>, name: string) {
    name in bound && !bound[name].NoneArg? && Quote(bound[name].text).Some?
  }

  /** No name occurs twice, and every one has an argument that can be quoted. */
  ghost predicate Poppable(bound: map<string, Arg>, names: seq<string>) {
    NoRepeats(names) && forall i :: 0 <= i < |names| ==> QuotableArg(bound, names[i])
  }

  /** What `inspect.signature(...).bind` and `apply_defaults` guarantee, and what a built spec does. */
  ghost predicate Bound(spec: Spec, bound: map<string, Arg>) {
    && spec.pathParams == FindAll(spec.template)
    && (forall i :: 0 <= i < |spec.pathParams| ==> spec.pathParams[i] in bound && OnWire(spec.pathParams[i]))
    && (forall i :: 0 <= i < |spec.queryParams| ==>
          spec.queryParams[i] in bound && OnWire(spec.queryParams[i]) && spec.queryParams[i] !in spec.pathParams
          && spec.bodyParam != Some(spec.queryParams[i]))
    && (spec.bodyParam.Some? ==>
          spec.bodyParam.value in bound && OnWire(spec.bodyParam.value) && spec.bodyParam.value !in spec.pathParams)
    && NoRepeats(spec.queryParams)
  }

  /** The path variables for `names`, and what is left of the arguments once they are popped. */
  function PathVars(bound: map<string, Arg>, names: seq<string>): map<string, string> {
    QuoteAll(Texts(bound, names))
  }

  function Unpopped(bound: map<string, Arg>, names: seq<string>): map<string, Arg> {
    map name | name in bound && OnWire(name) && name !in names :: bound[name]
  }

  /** One more name can be popped iff it is not popped yet and its argument can be quoted. */
  lemma PopOne(bound: map<string, Arg>, names: seq<string>, name: string)
    requires Poppable(bound, names) && name in bound && OnWire(name)
    ensures name in Unpopped(bound, names) <==> name !in names
    ensures name !in names ==> Unpopped(bound, names)[name] == bound[name]
    ensures Poppable(bound, names + [name]) <==> name !in names && QuotableArg(bound, name)
  {
    hide Quote;
    var more := names + [name];
    assert more[|names|] == name && forall i :: 0 <= i < |names| ==> more[i] == names[i];
    assert name in names <==> exists i :: 0 <= i < |names| && more[i] == more[|names|];
    assert Poppable(bound, more) ==> QuotableArg(bound, more[|names|]);
  }

  lemma PoppedOne(bound: map<string, Arg>, names: seq<string>, name: string)
    ensures Unpopped(bound, names) - {name} == Unpopped(bound, names + [name])
    ensures QuotableArg(bound, name) ==>
              PathVars(bound, names)[name := Quote(bound[name].text).value] == PathVars(bound, names + [name])
  {
  }

  lemma PopNone(bound: map<string, Arg>)
    ensures Unpopped(bound, []) == bound - {"self"} - {"ctx"} && PathVars(bound, []) == map[] && Poppable(bound, [])
  {
  }

  lemma PrefixIsPoppable(bound: map<string, Arg>, names: seq<string>, i: nat)
    requires i < |names|
    ensures names[..i + 1] == names[..i] + [names[i]]
    ensures Poppable(bound, names) ==> Poppable(bound, names[..i + 1])
    ensures NoRepeats(names) ==> NoRepeats(names[..i + 1])
  {
    hide QuotableArg;
  }

  lemma RepeatedName(names: seq<string>, name: string)
    requires name in names
    ensures !NoRepeats(names + [name])
  {
    var i :| 0 <= i < |names| && names[i] == name;
    assert (names + [name])[i] == (names + [name])[|names|];
  }

  /** What one iteration of the path loop can rely on, and what it achieves. */
  lemma PopStep(spec: Spec, bound: map<string, Arg>, i: nat)
    requires Bound(spec, bound) && i < |spec.pathParams| && Poppable(bound, spec.pathParams[..i])
    ensures var names, done, name := spec.pathParams, spec.pathParams[..i], spec.pathParams[i];
      && name in bound
      && (name in Unpopped(bound, done) <==> name !in done)
      && (name !in done ==> Unpopped(bound, done)[name] == bound[name])
      && (name in done ==> !NoRepeats(names) && !Poppable(bound, names))
      && (!QuotableArg(bound, name) ==> !Poppable(bound, names))
      && (name !in done && QuotableArg(bound, name) ==> Poppable(bound, names[..i + 1]))
      && Unpopped(bound, done) - {name} == Unpopped(bound, names[..i + 1])
      && (QuotableArg(bound, name) ==>
            PathVars(bound, done)[name := Quote(bound[name].text).value] == PathVars(bound, names[..i + 1]))
  {
    var name := spec.pathParams[i];
    hide PathVars, Quote, Unpopped, FindAll, Poppable, NoRepeats;
    PrefixIsPoppable(bound, spec.pathParams, i);
    PopOne(bound, spec.pathParams[..i], name);
    PoppedOne(bound, spec.pathParams[..i], name);
    if name in spec.pathParams[..i] {
      RepeatedName(spec.pathParams[..i], name);
    }
  }

  /** What an error of the path loop says about the call. */
  ghost predicate Explains(e: CallError, names: seq<string>, bound: map<string, Arg>) {
    match e
    case MissingKey(_) => !NoRepeats(names)
    case NonePathParam(name) => name in bound && bound[name] == NoneArg
    case Unencodable(name) => name in bound && !bound[name].NoneArg? && Quote(bound[name].text).None?
    case BadTemplate => false
  }

  /** The first loop of the wrapper: pop each path argument and quote it. */
  method BindPath(spec: Spec, bound: map<string, Arg>)
    returns (r: Result<map<string, string>, CallError>, left: map<string, Arg>)
    requires Bound(spec, bound)
    ensures r.Ok? <==> Poppable(bound, spec.pathParams)
    ensures r.Ok? ==> r.value == PathVars(bound, spec.pathParams) && left == Unpopped(bound, spec.pathParams)
    ensures r.Err? ==> Explains(r.error, spec.pathParams, bound)
  {
    left := bound - {"self"};
    left := left - {"ctx"};
    var vars: map<string, string> := map[];
    PopNone(bound);
    hide PathVars, Quote, Unpopped, Bound, Poppable, NoRepeats;
    for i := 0 to |spec.pathParams|
      invariant Poppable(bound, spec.pathParams[..i])
      invariant vars == PathVars(bound, spec.pathParams[..i]) && left == Unpopped(bound, spec.pathParams[..i])
    {
      PopStep(spec, bound, i);
      var name := spec.pathParams[i];
      if name !in left {
        return Err(MissingKey(name)), left;
      }
      var value := left[name];
      left := left - {name};
      if value.NoneArg? {
        return Err(NonePathParam(name)), left;
      }
      var quoted := Quote(value.text);
      if quoted.None? {
        return Err(Unencodable(name)), left;
      }
      vars := vars[name := quoted.value];
    }
    assert spec.pathParams[..|spec.pathParams|] == spec.pathParams;
    return Ok(vars), left;
  }

  lemma PickOne(bound: map<string, Arg>, names: seq<string>, i: nat)
    requires i < |names| && names[i] in bound
    ensures Picked(bound, names[..i + 1]) ==
            if bound[names[i]].NoneArg? then Picked(bound, names[..i])
            else Picked(bound, names[..i])[names[i] := bound[names[i]]]
  {
    assert names[..i + 1] == names[..i] + [names[i]];
  }

  lemma PickNone(bound: map<string, Arg>)
    ensures Picked(bound, []) == map[]
  {
  }

  /** The arguments from the `i`-th name on are still there. */
  ghost predicate StillThere(left: map<string, Arg>, bound: map<string, Arg>, names: seq<string>, i: nat) {
    forall k :: i <= k < |names| ==> names[k] in bound && names[k] in left && left[names[k]] == bound[names[k]]
  }

  lemma OthersStillThere(left: map<string, Arg>, bound: map<string, Arg>, names: seq<string>, i: nat)
    requires NoRepeats(names) && i < |names| && StillThere(left, bound, names, i)
    ensures StillThere(left - {names[i]}, bound, names, i + 1) && StillThere(left, bound, names, i + 1)
  {
  }

  /** The last loop: pop each query argument that is not None. */
  method BindQuery(spec: Spec, bound: map<string, Arg>, left0: map<string, Arg>) returns (query: map<string, Arg>)
    requires NoRepeats(spec.queryParams) && StillThere(left0, bound, spec.queryParams, 0)
    ensures query == Query(spec, bound)
    ensures forall name :: name in query <==> name in spec.queryParams && name in bound && bound[name] != NoneArg
    ensures forall name :: name in query ==> query[name] == bound[name]
  {
    hide NoRepeats, Picked;
    var left, names := left0, spec.queryParams;
    query := map[];
    PickNone(bound);
    for i := 0 to |names|
      invariant query == Picked(bound, names[..i]) && StillThere(left, bound, names, i)
    {
      var name := names[i];
      PickOne(bound, names, i);
      OthersStillThere(left, bound, names, i);
      if name in left && !left[name].NoneArg? {
        query := query[name := left[name]];
        left := left - {name};
      }
    }
    assert names[..|names|] == names;
    QueryIsPicked(spec, bound);
  }

  lemma QueryIsPicked(spec: Spec, bound: map<string, Arg>)
    ensures forall name :: name in Query(spec, bound) <==>
                           name in spec.queryParams && name in bound && bound[name] != NoneArg
    ensures forall name :: name in Query(spec, bound) ==> Query(spec, bound)[name] == bound[name]
  {
  }

  /** A call whose request is sent: no placeholder is popped twice, every path argument can be quoted, no brace strays. */
  ghost predicate Sendable(spec: Spec, bound: map<string, Arg>) {
    Poppable(bound, spec.pathParams) && SimplyBraced(spec.template)
  }

  function WireOf(spec: Spec, bound: map<string, Arg>): Wire {
    var path := FormatMap(spec.template, PathVars(bound, spec.pathParams));
    Wire(spec.verb, if path.Some? then path.value else "", Body(spec, bound), Query(spec, bound))
  }

  /** The per-call wrapper, up to the request it sends. A repeated placeholder is popped twice and fails. */
  method Invoke(spec: Spec, bound: map<string, Arg>) returns (r: Result<Wire, CallError>)
    requires Bound(spec, bound) && FieldsAreNames(spec.template)
    ensures r.Ok? <==> Sendable(spec, bound)
    ensures r.Ok? ==> r.value == WireOf(spec, bound) && r.value.verb == spec.verb
    ensures r.Ok? ==> FormatMap(spec.template, PathVars(bound, spec.pathParams)) == Some(r.value.path)
    ensures r.Err? ==>
              Explains(r.error, spec.pathParams, bound) || (r.error.BadTemplate? && !SimplyBraced(spec.template))
  {
    hide FormatMap, SimplyBraced, FieldsAreNames, FindAll, Quote, Poppable;
    var vars, left := BindPath(spec, bound);
    if vars.Err? {
      return Err(vars.error);
    }
    PathIsDefined(spec, bound);
    var path := FormatMap(spec.template, vars.value);
    if path.None? {
      return Err(BadTemplate);
    }
    var json := NoJson;
    if spec.bodyParam.Some? {
      var value := left[spec.bodyParam.value];
      left := left - {spec.bodyParam.value};
      json := match value
              case NoneArg => NoJson
              case ModelArg(_, payload) => JsonObject(PU.Dump(payload, spec.partialUpdate))
              case Plain(text) => JsonOther(Plain(text));
    }
    var query := BindQuery(spec, bound, left);
    return Ok(Wire(spec.verb, path.value, json, query));
  }

  lemma PathIsDefined(spec: Spec, bound: map<string, Arg>)
    requires Bound(spec, bound) && Poppable(bound, spec.pathParams)
    ensures FormatMap(spec.template, PathVars(bound, spec.pathParams)).Some? <==> SimplyBraced(spec.template)
  {
    hide FormatMap, SimplyBraced, FindAll, Quote;
    var vars := PathVars(bound, spec.pathParams);
    forall name | name in FindAll(spec.template) ensures name in vars {
      var i :| 0 <= i < |spec.pathParams| && spec.pathParams[i] == name;
      assert QuotableArg(bound, spec.pathParams[i]);
    }
    if SimplyBraced(spec.template) {
      FormatIsDefined(spec.template, vars);
    }
    if FormatMap(spec.template, vars).Some? {
      FilledIsSimplyBraced(spec.template, vars);
    }
  }

  /** What `Invoke` sends for a built spec: the declared method, the filled template, the body and the query. */
  lemma SentAsDeclared(m: RC.Method, template: string, sig: Signature, bound: map<string, Arg>)
    requires DistinctNames(sig.params) && BuildSpec(Some(m), template, sig).Ok?
    requires forall i :: 0 <= i < |sig.params| ==> sig.params[i].name in bound
    requires Sendable(BuildSpec(Some(m), template, sig).value, bound)
    ensures var spec := BuildSpec(Some(m), template, sig).value;
      var w := WireOf(spec, bound);
      && w.verb == m
      && FormatMap(template, PathVars(bound, FindAll(template))) == Some(w.path)
      && (w.json != NoJson <==> exists name :: spec.bodyParam == Some(name) && name in bound && !bound[name].NoneArg?)
      && (forall name :: name in w.query ==>
            Declared(sig.params, name) && name !in FindAll(template) && spec.bodyParam != Some(name))
  {
    var spec := BuildSpec(Some(m), template, sig).value;
    SpecIsAsDeclared(m, template, sig);
    SpecPartitionsParameters(Some(m), template, sig);
    BuiltSpecIsBound(Some(m), template, sig, bound);
    PathIsDefined(spec, bound);
    hide BuildSpec, FormatMap, SimplyBraced, FindAll, PathVars, Quote, Poppable;
    forall name | name in Query(spec, bound)
      ensures Declared(sig.params, name) && name !in spec.pathParams && spec.bodyParam != Some(name)
    {
      assert InQuery(spec, name);
    }
  }

  /** A built spec and a bound call meet what the wrapper needs. */
  lemma BuiltSpecIsBound(verb: Option<RC.Method>, template: string, sig: Signature, bound: map<string, Arg>)
    requires DistinctNames(sig.params) && BuildSpec(verb, template, sig).Ok?
    requires forall i :: 0 <= i < |sig.params| ==> sig.params[i].name in bound
    ensures Bound(BuildSpec(verb, template, sig).value, bound)
  {
    SpecPartitionsParameters(verb, template, sig);
    var spec := BuildSpec(verb, template, sig).value;
    assert spec.pathParams == FindAll(spec.template);
    hide BuildSpec;
    forall i | 0 <= i < |spec.queryParams|
      ensures spec.queryParams[i] in bound && OnWire(spec.queryParams[i]) && spec.queryParams[i] !in spec.pathParams
      ensures spec.bodyParam != Some(spec.queryParams[i])
    {
      assert InQuery(spec, spec.queryParams[i]);
    }
    forall i | 0 <= i < |spec.pathParams| ensures spec.pathParams[i] in bound && OnWire(spec.pathParams[i]) {
      assert InPath(spec, spec.pathParams[i]);
    }
    if spec.bodyParam.Some? {
      assert InBody(spec, spec.bodyParam.value);
    }
  }

  // ----- what is on the wire -----

  predicate HasText(arg: Arg, part: string) {
    !arg.NoneArg? && Unquote(part) == Some(arg.text)
  }

  /** The path segments that are the hole of this name and decode to the argument's text. */
  ghost function PathCarriers(segments: seq<Segment>, path: string, name: string, arg: Arg): set<int> {
    set i | 0 <= i < |segments| && i < |Split(path)| && segments[i] == Hole(name) && HasText(arg, Split(path)[i])
  }

  predicate BodyCarries(json: Json, arg: Arg, partial: bool) {
    match arg
    case NoneArg => false
    case ModelArg(_, payload) => json == JsonObject(PU.Dump(payload, partial))
    case Plain(_) => json == JsonOther(arg)
  }

  /** In how many places of the request sent an argument can be read back. */
  ghost function Carriers(segments: seq<Segment>, spec: Spec, w: Wire, name: string, arg: Arg): nat {
    |PathCarriers(segments, w.path, name, arg)|
    + (if spec.bodyParam == Some(name) && BodyCarries(w.json, arg, spec.verb == RC.PATCH) then 1 else 0)
    + (if name in w.query && w.query[name] == arg then 1 else 0)
  }

  /** A request sent for a whole-segment template: its path splits into the template's segments, each hole decodable. */
  lemma CallPathRoundTrip(verb: Option<RC.Method>, segments: seq<Segment>, sig: Signature, bound: map<string, Arg>)
    requires AllClean(segments) && BuildSpec(verb, Template(segments), sig).Ok?
    requires Sendable(BuildSpec(verb, Template(segments), sig).value, bound)
    ensures var parts := Split(WireOf(BuildSpec(verb, Template(segments), sig).value, bound).path);
      |parts| == |segments|
      && forall i :: 0 <= i < |segments| ==>
           match segments[i]
           case Literal(text) => parts[i] == text
           case Hole(name) => name in bound && HasText(bound[name], parts[i])
    ensures SimplyBraced(Template(segments)) && FieldsAreNames(Template(segments))
  {
    var spec := BuildSpec(verb, Template(segments), sig).value;
    var args := Texts(bound, spec.pathParams);
    assert spec.pathParams == FindAll(Template(segments)) && spec.template == Template(segments);
    hide BuildSpec, FindAll, Template, FormatMap, Clean, Split, Unquote, Quote, SimplyBraced, FieldsAreNames;
    PlaceholdersAreHoles(segments);
    forall i | 0 <= i < |segments| && segments[i].Hole?
      ensures segments[i].name in args && args[segments[i].name] == bound[segments[i].name].text
      ensures Quote(args[segments[i].name]).Some?
    {
      NamesMember(segments, i);
      var k :| 0 <= k < |spec.pathParams| && spec.pathParams[k] == segments[i].name;
      assert QuotableArg(bound, spec.pathParams[k]);
    }
    RenderRoundTrip(segments, args);
    FilledIsSimplyBraced(Template(segments), QuoteAll(args));
    SimplyBracedFieldsAreNames(Template(segments));
  }

  /** The leg of the path: one segment for a placeholder's argument, none for any other name. */
  lemma PathCarriesOnce(segments: seq<Segment>, path: string, name: string, arg: Arg)
    requires NoRepeats(Names(segments)) && |Split(path)| == |segments|
    requires forall i :: 0 <= i < |segments| && segments[i] == Hole(name) ==> HasText(arg, Split(path)[i])
    ensures |PathCarriers(segments, path, name, arg)| == (if name in Names(segments) then 1 else 0)
  {
    hide Split, HasText;
    if name in Names(segments) {
      var i := NamesIndex(segments, name);
      forall j | 0 <= j < |segments| && segments[j] == Hole(name) ensures j == i {
        if j < i {
          HolesAreDistinct(segments, j, i);
        } else if i < j {
          HolesAreDistinct(segments, i, j);
        }
      }
      assert PathCarriers(segments, path, name, arg) == {i};
    } else {
      forall j | 0 <= j < |segments| && segments[j].Hole? ensures segments[j] != Hole(name) {
        NamesMember(segments, j);
      }
      assert PathCarriers(segments, path, name, arg) == {};
    }
  }

  /**
   * Conservation on the request that is sent: every declared argument that is not None can
   * be read back from exactly one place of it, `self` and `ctx` from none, and a None
   * argument is dropped; the query holds nothing that was not declared.
   */
  lemma ArgumentsAreConserved(verb: Option<RC.Method>, segments: seq<Segment>, sig: Signature,
                              bound: map<string, Arg>, name: string)
    requires DistinctNames(sig.params) && AllClean(segments) && BuildSpec(verb, Template(segments), sig).Ok?
    requires forall i :: 0 <= i < |sig.params| ==> sig.params[i].name in bound
    requires Declared(sig.params, name) && Sendable(BuildSpec(verb, Template(segments), sig).value, bound)
    ensures var spec := BuildSpec(verb, Template(segments), sig).value;
      var w := WireOf(spec, bound);
      && Some(w.verb) == verb
      && Carriers(segments, spec, w, name, bound[name])
         == (if name != "self" && name != "ctx" && !bound[name].NoneArg? then 1 else 0)
      && (forall k :: k in w.query ==> Declared(sig.params, k) && k != "self" && k != "ctx")
  {
    var spec := BuildSpec(verb, Template(segments), sig).value;
    SpecPartitionsParameters(verb, Template(segments), sig);
    CallPathRoundTrip(verb, segments, sig, bound);
    PlaceholdersAreHoles(segments);
    assert spec.pathParams == Names(segments) && spec.partialUpdate == (spec.verb == RC.PATCH);
    hide BuildSpec, Template, FindAll, FormatMap, Split, HasText, Unquote, Quote, SimplyBraced, FieldsAreNames, Clean;
    hide Sendable;
    var w := WireOf(spec, bound);
    assert NoRepeats(Names(segments)) by { SendableHasNoRepeats(spec, bound); }
    PathCarriesOnce(segments, w.path, name, bound[name]);
    assert InPath(spec, name) ==> !bound[name].NoneArg? by { SendableHasNoRepeats(spec, bound); }
    forall k | k in w.query ensures Declared(sig.params, k) && OnWire(k) {
      assert InQuery(spec, k);
    }
    OnePlaceEach(spec, bound, name);
  }

  lemma SendableHasNoRepeats(spec: Spec, bound: map<string, Arg>)
    requires Sendable(spec, bound)
    ensures NoRepeats(spec.pathParams)
    ensures forall name :: InPath(spec, name) ==> name in bound && !bound[name].NoneArg?
  {
    forall name | InPath(spec, name) ensures name in bound && !bound[name].NoneArg? {
      var i :| 0 <= i < |spec.pathParams| && spec.pathParams[i] == name;
      assert QuotableArg(bound, spec.pathParams[i]);
    }
  }

  /** The legs of the body and the query. */
  lemma OnePlaceEach(spec: Spec, bound: map<string, Arg>, name: string)
    requires name in bound && spec.partialUpdate == (spec.verb == RC.PATCH)
    ensures InBody(spec, name) ==>
              (BodyCarries(Body(spec, bound), bound[name], spec.verb == RC.PATCH) <==> !bound[name].NoneArg?)
    ensures name in Query(spec, bound) <==> InQuery(spec, name) && !bound[name].NoneArg?
    ensures name in Query(spec, bound) ==> Query(spec, bound)[name] == bound[name]
  {
  }

  lemma {:induction false} HolesAreDistinct(segments: seq<Segment>, i: nat, j: nat)
    requires i < j < |segments| && segments[i].Hole? && segments[i] == segments[j]
    ensures !NoRepeats(Names(segments))
  {
    var rest := Names(segments[1..]);
    if i == 0 {
      NamesMember(segments[1..], j - 1);
      var k :| 0 <= k < |rest| && rest[k] == segments[0].name;
      assert Names(segments)[0] == Names(segments)[k + 1];
    } else {
      HolesAreDistinct(segments[1..], i - 1, j - 1);
      var a, b :| 0 <= a < b < |rest| && rest[a] == rest[b];
      var shift := |Names(segments)| - |rest|;
      assert Names(segments)[a + shift] == Names(segments)[b + shift];
    }
  }

  lemma {:induction false} NamesIndex(segments: seq<Segment>, name: string) returns (i: nat)
    requires name in Names(segments)
    ensures i < |segments| && segments[i] == Hole(name)
  {
    if segments[0] == Hole(name) {
      i := 0;
    } else {
      i := NamesIndex(segments[1..], name);
      i := i + 1;
    }
  }

  const TWICE: seq<Segment> := [Hole("id"), Hole("id")]

  lemma TwiceTheSameName()
    ensures AllClean(TWICE) && FindAll(Template(TWICE)) == ["id", "id"]
  {
    PlaceholdersAreHoles(TWICE);
    hide FindAll, Template;
    assert TWICE[1..] == [Hole("id")] && TWICE[1..][1..] == [];
  }

  /** A placeholder that occurs twice is accepted when the endpoint is declared, and no call of it is ever sent. */
  lemma RepeatedPlaceholderIsNeverSent(bound: map<string, Arg>)
    ensures var sig := Signature([Param("self", false), Param("id", false)], true, true);
      var built := BuildSpec(Some(RC.GET), Template(TWICE), sig);
      AllClean(TWICE) && DistinctNames(sig.params) && built.Ok? && !Sendable(built.value, bound)
  {
    hide FindAll, Template, AllClean;
    TwiceTheSameName();
    var params := [Param("self", false), Param("id", false)];
    var path := FindAll(Template(TWICE));
    assert path[0] == path[1];
    assert params[1].name == "id" && Declared(params, "id");
    NoModels(params, path);
  }

  lemma {:induction false} NoModels(params: seq<Param>, path: seq<string>)
    requires forall i :: 0 <= i < |params| ==> !params[i].isModel
    ensures BodyParams(params, path) == []
  {
    if params != [] {
      NoModels(params[1..], path);
    }
  }

  lemma PlaceholdersAreHoles(segments: seq<Segment>)
    requires AllClean(segments)
    ensures FindAll(Template(segments)) == Names(segments)
  {
    TemplateSemantics(segments, map i | 0 <= i < |segments| && segments[i].Hole? :: segments[i].name := "");
  }

  lemma {:induction false} NamesMember(segments: seq<Segment>, i: nat)
    requires i < |segments| && segments[i].Hole?
    ensures segments[i].name in Names(segments)
  {
    if i > 0 {
      NamesMember(segments[1..], i - 1);
    }
  }

  // ----- the return contract -----

  datatype Annotation = NoneType | ModelType | OptionalModel

  /** `_resolve_return_contract`: whether the caller gets None, and the model passed to the client. */
  function ReturnContract(a: Annotation): (bool, RC.Model) {
    match a
    case NoneType => (true, RC.Raw)
    case ModelType => (false, RC.Required)
    case OptionalModel => (false, RC.Optional)
  }

  function Returned<V>(a: Annotation, attempt: RC.Attempt<V>): Result<RC.Value<V>, RC.Error> {
    var r := RC.Once(attempt, ReturnContract(a).1);
    if r.Ok? && ReturnContract(a).0 then Ok(RC.NoneValue) else r
  }

  /** `-> None` never looks at the body; otherwise a 2xx body is parsed, and only an Optional contract allows no result. */
  lemma ReturnContractHolds<V>(a: Annotation, attempt: RC.Attempt<V>)
    ensures a == NoneType ==> Returned(a, attempt) == RC.Once(attempt, RC.NoContent)
    ensures Returned(a, attempt).Ok? <==>
            && attempt.Answered? && 200 <= attempt.status < 300
            && (a == NoneType || attempt.content.Readable? || (a == OptionalModel && !attempt.content.Unreadable?))
    ensures Returned(a, attempt) == Ok(RC.NoneValue) <==>
            && attempt.Answered? && 200 <= attempt.status < 300
            && (a == NoneType || (a == OptionalModel && (attempt.content.Empty? || attempt.content.JsonNull?)))
    ensures Returned(a, attempt).Ok? && Returned(a, attempt).value != RC.NoneValue ==>
              attempt.content.Readable? && Returned(a, attempt) == Ok(RC.Parsed(attempt.content.value))
    ensures Returned(a, attempt).Err? && attempt.Answered? && 200 <= attempt.status < 300 ==>
              Returned(a, attempt) == Err(RC.ServiceResponse)
  {
  }
}
