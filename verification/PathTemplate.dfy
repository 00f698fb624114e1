/** URL path templates: finding `{name}` placeholders, filling them, and reading a rendered path back. */
module PathTemplate {
  import opened Wrappers
  import opened PercentEncoding

  predicate IsWord(c: char) {
    'a' <= c <= 'z' || 'A' <= c <= 'Z' || '0' <= c <= '9' || c == '_'
  }

  /** Of the unreserved characters only the three marks are not word characters. */
  lemma WordIff(c: char)
    ensures IsWord(c) <==> IsUnreserved(c as int) && c !in "-.~"
  {
  }

  /** How many word characters `s` starts with. */
  function WordRun(s: string): (n: nat)
    ensures n <= |s|
    ensures forall i :: 0 <= i < n ==> IsWord(s[i])
    ensures n < |s| ==> !IsWord(s[n])
  {
    if s == "" || !IsWord(s[0]) then 0 else 1 + WordRun(s[1..])
  }

  /** The name of the placeholder `{\w+}` that `s` starts with, if any. */
  function PlaceholderAt(s: string): (r: Option<string>)
    ensures r.Some? ==> |s| >= |r.value| + 2
  {
    if s == "" || s[0] != '{' then None else
    var n := WordRun(s[1..]);
    if n > 0 && n + 1 < |s| && s[n + 1] == '}' then Some(s[1..n + 1]) else None
  }

  /** `re.findall(r"{(\w+)}", s)` */
  function FindAll(s: string): seq<string>
    decreases |s|
  {
    if s == "" then []
    else match PlaceholderAt(s)
         case Some(name) => [name] + FindAll(s[|name| + 2..])
         case None => FindAll(s[1..])
  }

  function Prepend(head: string, rest: Option<string>): Option<string> {
    match rest
    case None => None
    case Some(r) => Some(head + r)
  }

  /** A doubled brace, which stands for itself. */
  predicate IsDoubled(s: string) {
    |s| >= 2 && s[0] == s[1] && (s[0] == '{' || s[0] == '}')
  }

  /** `s.format_map(vars)` where fields are names (`FieldsAreNames`); `None` for an unknown name or a malformed `s`. */
  function FormatMap(s: string, vars: map<string, string>): Option<string>
    decreases |s|
  {
    if s == "" then Some("")
    else if IsDoubled(s) then Prepend([s[0]], FormatMap(s[2..], vars))
    else match PlaceholderAt(s)
         case Some(name) => if name in vars then Prepend(vars[name], FormatMap(s[|name| + 2..], vars)) else None
         case None => if s[0] == '{' || s[0] == '}' then None else Prepend([s[0]], FormatMap(s[1..], vars))
  }

  /** Up to the first malformed brace every field is a name: no conversions, format specs, attributes or indices. */
  predicate FieldsAreNames(s: string)
    decreases |s|
  {
    if s == "" then true
    else if IsDoubled(s) then FieldsAreNames(s[2..])
    else match PlaceholderAt(s)
         case Some(name) => FieldsAreNames(s[|name| + 2..])
         case None =>
           if s[0] == '{' then '}' !in s || s[1] == '}'
           else s[0] == '}' || FieldsAreNames(s[1..])
  }

  /** Well formed: every brace is doubled or belongs to a placeholder `{\w+}`. */
  predicate SimplyBraced(s: string)
    decreases |s|
  {
    if s == "" then true
    else if IsDoubled(s) then SimplyBraced(s[2..])
    else match PlaceholderAt(s)
         case Some(name) => SimplyBraced(s[|name| + 2..])
         case None => s[0] != '{' && s[0] != '}' && SimplyBraced(s[1..])
  }

  lemma {:induction false} SimplyBracedFieldsAreNames(s: string)
    requires SimplyBraced(s)
    ensures FieldsAreNames(s)
    decreases |s|
  {
    if s == "" {
    } else if IsDoubled(s) {
      SimplyBracedFieldsAreNames(s[2..]);
    } else if PlaceholderAt(s).Some? {
      SimplyBracedFieldsAreNames(s[|PlaceholderAt(s).value| + 2..]);
    } else {
      SimplyBracedFieldsAreNames(s[1..]);
    }
  }

  lemma {:induction false} NothingToFind(prefix: string, rest: string)
    requires '{' !in prefix
    ensures FindAll(prefix + rest) == FindAll(rest)
  {
    if prefix == "" {
      assert prefix + rest == rest;
    } else {
      NothingToFind(prefix[1..], rest);
      assert (prefix + rest)[1..] == prefix[1..] + rest;
    }
  }

  /** What is found after the first character is found anyway. */
  lemma FoundLater(s: string)
    requires s != ""
    ensures forall name :: name in FindAll(s[1..]) ==> name in FindAll(s)
  {
    if PlaceholderAt(s).Some? {
      var name := PlaceholderAt(s).value;
      var rest := s[|name| + 2..];
      assert s[1..] == (name + "}") + rest;
      NothingToFind(name + "}", rest);
    }
  }

  /** A simply braced template can be filled as soon as every name found in it is known. */
  lemma {:induction false} FormatIsDefined(s: string, vars: map<string, string>)
    requires SimplyBraced(s) && forall name :: name in FindAll(s) ==> name in vars
    ensures FormatMap(s, vars).Some?
    decreases |s|
  {
    if s == "" {
    } else if IsDoubled(s) {
      FoundLater(s);
      FoundLater(s[1..]);
      assert s[1..][1..] == s[2..];
      FormatIsDefined(s[2..], vars);
    } else if PlaceholderAt(s).Some? {
      FormatIsDefined(s[|PlaceholderAt(s).value| + 2..], vars);
    } else {
      FormatIsDefined(s[1..], vars);
    }
  }

  /** A text with its braces doubled. */
  function Escaped(text: string): string {
    if text == "" then "" else (if text[0] in "{}" then [text[0], text[0]] else [text[0]]) + Escaped(text[1..])
  }

  /** An escaped text stands for itself, whatever the arguments. */
  lemma {:induction false} EscapedStandsForItself(text: string, vars: map<string, string>)
    ensures FormatMap(Escaped(text), vars) == Some(text)
  {
    if text != "" {
      EscapedStandsForItself(text[1..], vars);
      var s := Escaped(text);
      if text[0] in "{}" {
        assert s[2..] == Escaped(text[1..]);
      } else {
        assert s[1..] == Escaped(text[1..]);
      }
      assert text == [text[0]] + text[1..];
    }
  }

  lemma {:induction false} FilledIsSimplyBraced(s: string, vars: map<string, string>)
    requires FormatMap(s, vars).Some?
    ensures SimplyBraced(s)
    decreases |s|
  {
    if s == "" {
    } else if IsDoubled(s) {
      FilledIsSimplyBraced(s[2..], vars);
    } else if PlaceholderAt(s).Some? {
      FilledIsSimplyBraced(s[|PlaceholderAt(s).value| + 2..], vars);
    } else {
      FilledIsSimplyBraced(s[1..], vars);
    }
  }

  // ----- whole-segment templates -----

  datatype Segment = Literal(text: string) | Hole(name: string)

  predicate IsPlain(c: char) {
    c != '{' && c != '}' && c != '/'
  }

  /** Literals are free of braces and slashes, names are words. */
  ghost predicate Clean(s: Segment) {
    match s
    case Literal(text) => forall i :: 0 <= i < |text| ==> IsPlain(text[i])
    case Hole(name) => name != "" && forall i :: 0 <= i < |name| ==> IsWord(name[i])
  }

  ghost predicate AllClean(segments: seq<Segment>) {
    segments != [] && forall i :: 0 <= i < |segments| ==> Clean(segments[i])
  }

  function SegmentText(s: Segment): string {
    match s
    case Literal(text) => text
    case Hole(name) => "{" + name + "}"
  }

  function Join(parts: seq<string>): string {
    if |parts| == 0 then "" else if |parts| == 1 then parts[0] else parts[0] + "/" + Join(parts[1..])
  }

  function Texts(segments: seq<Segment>): seq<string> {
    seq(|segments|, i requires 0 <= i < |segments| => SegmentText(segments[i]))
  }

  /** The template string with these segments. */
  function Template(segments: seq<Segment>): string {
    Join(Texts(segments))
  }

  function Names(segments: seq<Segment>): seq<string> {
    if segments == [] then []
    else (if segments[0].Hole? then [segments[0].name] else []) + Names(segments[1..])
  }

  function Fill(s: Segment, vars: map<string, string>): string {
    match s
    case Literal(text) => text
    case Hole(name) => if name in vars then vars[name] else ""
  }

  function Filled(segments: seq<Segment>, vars: map<string, string>): seq<string> {
    seq(|segments|, i requires 0 <= i < |segments| => Fill(segments[i], vars))
  }

  lemma {:induction false} WordRunOf(name: string, rest: string)
    requires forall i :: 0 <= i < |name| ==> IsWord(name[i])
    requires rest != "" && !IsWord(rest[0])
    ensures WordRun(name + rest) == |name|
  {
    if name == "" {
      assert name + rest == rest;
    } else {
      WordRunOf(name[1..], rest);
      assert (name + rest)[1..] == name[1..] + rest;
    }
  }

  lemma PlaceholderFound(name: string, rest: string)
    requires Clean(Hole(name))
    ensures PlaceholderAt("{" + name + "}" + rest) == Some(name)
    ensures ("{" + name + "}" + rest)[|name| + 2..] == rest
  {
    var s := "{" + name + "}" + rest;
    assert s[1..] == name + ("}" + rest);
    WordRunOf(name, "}" + rest);
    assert s[1..|name| + 1] == name;
  }

  lemma CharInFront(c: char, rest: string, vars: map<string, string>)
    requires c != '{' && c != '}'
    ensures FindAll([c] + rest) == FindAll(rest)
    ensures FormatMap([c] + rest, vars) == Prepend([c], FormatMap(rest, vars))
  {
  }

  lemma {:induction false} LiteralInFront(text: string, rest: string, vars: map<string, string>)
    requires Clean(Literal(text))
    ensures FindAll(text + rest) == FindAll(rest)
    ensures FormatMap(text + rest, vars) == Prepend(text, FormatMap(rest, vars))
  {
    hide FindAll, FormatMap;
    if text == "" {
      assert text + rest == rest;
      assert FormatMap(rest, vars).Some? ==> "" + FormatMap(rest, vars).value == FormatMap(rest, vars).value;
    } else {
      assert IsPlain(text[0]);
      LiteralInFront(text[1..], rest, vars);
      CharInFront(text[0], text[1..] + rest, vars);
      assert text + rest == [text[0]] + (text[1..] + rest);
      if FormatMap(rest, vars).Some? {
        assert [text[0]] + (text[1..] + FormatMap(rest, vars).value) == text + FormatMap(rest, vars).value;
      }
    }
  }

  /** A clean segment at the front is found, and filled, on its own. */
  lemma SegmentInFront(s: Segment, rest: string, vars: map<string, string>)
    requires Clean(s)
    ensures FindAll(SegmentText(s) + rest) == (if s.Hole? then [s.name] else []) + FindAll(rest)
    ensures (s.Hole? ==> s.name in vars) ==>
              FormatMap(SegmentText(s) + rest, vars) == Prepend(Fill(s, vars), FormatMap(rest, vars))
  {
    match s
    case Hole(name) => PlaceholderFound(name, rest);
    case Literal(text) =>
      LiteralInFront(text, rest, vars);
      assert [] + FindAll(rest) == FindAll(rest);
  }

  lemma SlashInFront(rest: string, vars: map<string, string>)
    ensures FindAll("/" + rest) == FindAll(rest)
    ensures FormatMap("/" + rest, vars) == Prepend("/", FormatMap(rest, vars))
  {
  }

  lemma TemplateSplits(segments: seq<Segment>, vars: map<string, string>)
    requires |segments| > 1
    ensures Template(segments) == SegmentText(segments[0]) + ("/" + Template(segments[1..]))
    ensures Join(Filled(segments, vars)) == Fill(segments[0], vars) + ("/" + Join(Filled(segments[1..], vars)))
  {
    hide Fill, SegmentText;
    assert Texts(segments)[1..] == Texts(segments[1..]);
    assert Filled(segments, vars)[1..] == Filled(segments[1..], vars);
  }

  /** The placeholders found are the holes, in order; filling gives the filled segments joined by slashes. */
  lemma {:induction false} TemplateSemantics(segments: seq<Segment>, vars: map<string, string>)
    requires AllClean(segments)
    requires forall i :: 0 <= i < |segments| && segments[i].Hole? ==> segments[i].name in vars
    ensures FindAll(Template(segments)) == Names(segments)
    ensures FormatMap(Template(segments), vars) == Some(Join(Filled(segments, vars)))
    decreases |segments|
  {
    hide FindAll, FormatMap, Clean, Fill, SegmentText;
    var s, tail := segments[0], segments[1..];
    if tail == [] {
      SegmentInFront(s, "", vars);
      EmptyTemplate(vars);
      assert SegmentText(s) + "" == SegmentText(s) && Fill(s, vars) + "" == Fill(s, vars);
      assert Names(tail) == [];
    } else {
      hide Template, Join, Filled;
      TemplateSemantics(tail, vars);
      SegmentInFront(s, "/" + Template(tail), vars);
      SlashInFront(Template(tail), vars);
      TemplateSplits(segments, vars);
    }
  }

  /** A hole whose name is not known makes the whole template fail. */
  lemma {:induction false} UnknownNameFails(segments: seq<Segment>, vars: map<string, string>, i: nat)
    requires AllClean(segments) && i < |segments| && segments[i].Hole? && segments[i].name !in vars
    ensures FormatMap(Template(segments), vars).None?
    decreases |segments|
  {
    hide FormatMap, Clean, SegmentText, Template;
    var s, tail := segments[0], segments[1..];
    if tail == [] {
      assert SegmentText(s) + "" == Template(segments) by { OneSegment(segments); }
      UnknownInFront(s, "", vars);
    } else {
      TemplateSplits(segments, vars);
      if s.Hole? && s.name !in vars {
        UnknownInFront(s, "/" + Template(tail), vars);
      } else {
        UnknownNameFails(tail, vars, i - 1);
        SegmentInFront(s, "/" + Template(tail), vars);
        SlashInFront(Template(tail), vars);
      }
    }
  }

  lemma OneSegment(segments: seq<Segment>)
    requires |segments| == 1
    ensures Template(segments) == SegmentText(segments[0]) + ""
  {
  }

  lemma UnknownInFront(s: Segment, rest: string, vars: map<string, string>)
    requires Clean(s) && s.Hole? && s.name !in vars
    ensures FormatMap(SegmentText(s) + rest, vars).None?
  {
    PlaceholderFound(s.name, rest);
    assert !IsDoubled(SegmentText(s) + rest) by {
      assert (SegmentText(s) + rest)[1] == s.name[0];
      assert IsWord(s.name[0]);
    }
  }

  /** The templates of the two services and what is found in them. */
  lemma DeclaredTemplates()
    ensures FindAll("/users/{user_id}") == ["user_id"] && FindAll("/flows/{flow_id}") == ["flow_id"]
    ensures FindAll("/users") == FindAll("/flows") == FindAll("/users/by-username") == []
  {
    hide FindAll;
    assert "/" + "users" + "/{" + "user_id" + "}" == "/users/{user_id}";
    OneHole("users", "user_id");
    assert "/" + "flows" + "/{" + "flow_id" + "}" == "/flows/{flow_id}";
    OneHole("flows", "flow_id");
    NoHole("/users");
    NoHole("/flows");
    NoHole("/users/by-username");
  }

  lemma NoHole(s: string)
    requires '{' !in s
    ensures FindAll(s) == []
  {
    NothingToFind(s, "");
    assert s + "" == s;
  }

  lemma OneHole(collection: string, name: string)
    requires '{' !in collection && Clean(Hole(name))
    ensures FindAll("/" + collection + "/{" + name + "}") == [name]
  {
    var hole := "{" + name + "}";
    NothingToFind("/" + collection + "/", hole);
    assert "/" + collection + "/{" + name + "}" == ("/" + collection + "/") + hole;
    PlaceholderFound(name, "");
    assert hole + "" == hole && FindAll("") == [];
  }

  lemma EmptyTemplate(vars: map<string, string>)
    ensures FindAll("") == [] && FormatMap("", vars) == Some("")
  {
  }

  // ----- reading a rendered path -----

  /** `s.split("/")` */
  function Split(s: string): (parts: seq<string>)
    ensures parts != []
  {
    if s == "" then [""]
    else
      var rest := Split(s[1..]);
      if s[0] == '/' then [""] + rest else [[s[0]] + rest[0]] + rest[1..]
  }

  predicate NoSlash(s: string) {
    '/' !in s
  }

  lemma {:induction false} SplitPart(part: string, rest: string)
    requires NoSlash(part)
    ensures Split(part) == [part]
    ensures Split(part + "/" + rest) == [part] + Split(rest)
  {
    if part == "" {
      assert "" + "/" + rest == "/" + rest && ("/" + rest)[1..] == rest;
    } else {
      SplitPart(part[1..], rest);
      assert (part + "/" + rest)[1..] == part[1..] + "/" + rest;
      assert part == [part[0]] + part[1..];
    }
  }

  lemma {:induction false} SplitAfterJoin(parts: seq<string>)
    requires parts != [] && forall i :: 0 <= i < |parts| ==> NoSlash(parts[i])
    ensures Split(Join(parts)) == parts
  {
    if |parts| == 1 {
      SplitPart(parts[0], "");
    } else {
      SplitAfterJoin(parts[1..]);
      SplitPart(parts[0], Join(parts[1..]));
    }
  }

  /** The quoted arguments the client puts into the template. */
  function QuoteAll(args: map<string, Text>): map<string, string> {
    map name | name in args && Quote(args[name]).Some? :: Quote(args[name]).value
  }

  ghost predicate Fits(segments: seq<Segment>, args: map<string, Text>) {
    && AllClean(segments)
    && forall i :: 0 <= i < |segments| && segments[i].Hole? ==>
         segments[i].name in args && Quote(args[segments[i].name]).Some?
  }

  function Render(segments: seq<Segment>, args: map<string, Text>): Option<string> {
    FormatMap(Template(segments), QuoteAll(args))
  }

  lemma FilledHasNoSlash(s: Segment, args: map<string, Text>)
    requires Clean(s)
    ensures NoSlash(Fill(s, QuoteAll(args)))
  {
    match s
    case Literal(text) => assert forall i :: 0 <= i < |text| ==> IsPlain(text[i]);
    case Hole(name) =>
      if name in args && Quote(args[name]).Some? {
        QuotedIsSafe(EncodeUtf8(args[name]).value);
      }
  }

  /**
   * Round trip: splitting the rendered path on "/" aligns with the template, literal
   * segments come back as they are, and decoding each hole recovers its argument.
   */
  lemma RenderRoundTrip(segments: seq<Segment>, args: map<string, Text>)
    requires Fits(segments, args)
    ensures Render(segments, args).Some?
    ensures var parts := Split(Render(segments, args).value);
      |parts| == |segments|
      && forall i :: 0 <= i < |segments| ==>
           match segments[i]
           case Literal(text) => parts[i] == text
           case Hole(name) => Unquote(parts[i]) == Some(args[name])
  {
    var vars := QuoteAll(args);
    TemplateSemantics(segments, vars);
    var parts := Filled(segments, vars);
    forall i | 0 <= i < |parts| ensures NoSlash(parts[i]) {
      FilledHasNoSlash(segments[i], args);
    }
    SplitAfterJoin(parts);
    forall i | 0 <= i < |segments| && segments[i].Hole? ensures Unquote(parts[i]) == Some(args[segments[i].name]) {
      QuoteRoundTrip(args[segments[i].name]);
    }
  }

  /** Rendering is injective per template: equal paths come from equal arguments in every hole. */
  lemma RenderIsInjective(segments: seq<Segment>, a: map<string, Text>, b: map<string, Text>)
    requires Fits(segments, a) && Fits(segments, b) && Render(segments, a) == Render(segments, b)
    ensures forall i :: 0 <= i < |segments| && segments[i].Hole? ==> a[segments[i].name] == b[segments[i].name]
  {
    hide Render, Split, Unquote, Quote;
    RenderRoundTrip(segments, a);
    RenderRoundTrip(segments, b);
  }
}
